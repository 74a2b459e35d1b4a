/**
The streaming side of tools/md5/md5.c. The specification is the one-shot digest of
sections 3.1 to 3.4 of RFC 1321: pad, append the 64-bit length, fold the blocks.
It holds for every compression function, which the context takes as a parameter.
*/
module Md5 {
  type Byte = x: int | 0 <= x < 0x100
  type Word = x: int | 0 <= x < 0x1_0000_0000  // UINT4
  type State = s: seq<Word> | |s| == 4 witness [0, 0, 0, 0]
  type Compression = (State, seq<Byte>) -> State

  const WORD: int := 0x1_0000_0000
  const IV: State := [0x67452301, 0xefcdab89, 0x98badcfe, 0x10325476]

  // ----- The one-shot specification -----

  function EncodeWord(w: Word): (b: seq<Byte>)
    ensures |b| == 4
  {
    [w % 256, w / 256 % 256, w / 256 / 256 % 256, w / 256 / 256 / 256]
  }

  function EncodeWords(ws: seq<Word>): (b: seq<Byte>)
    ensures |b| == 4 * |ws|
  {
    if ws == [] then [] else EncodeWord(ws[0]) + EncodeWords(ws[1..])
  }

  function Zeros(n: nat): (z: seq<Byte>)
    ensures |z| == n
  {
    seq(n, _ => 0)
  }

  /** Section 3.1: a one bit, then zeros up to 448 modulo 512 bits. */
  function Padding(length: nat): seq<Byte> {
    [0x80] + Zeros(if length % 64 < 56 then 55 - length % 64 else 119 - length % 64)
  }

  /** Section 3.2: the length in bits modulo 2^64, low-order word first. */
  function LengthTag(length: nat): (b: seq<Byte>)
    ensures |b| == 8
  {
    EncodeWord(8 * length % WORD) + EncodeWord(8 * length / WORD % WORD)
  }

  function Padded(m: seq<Byte>): seq<Byte> {
    m + Padding(|m|) + LengthTag(|m|)
  }

  /** Section 3.4: the whole blocks of m folded into the state. */
  function Blocks(f: Compression, st: State, m: seq<Byte>): State
    decreases |m|
  {
    if |m| < 64 then st else Blocks(f, f(st, m[..64]), m[64..])
  }

  function Digest(f: Compression, m: seq<Byte>): (d: seq<Byte>)
    ensures |d| == 16
  {
    EncodeWords(Blocks(f, IV, Padded(m)))
  }

  /** Padding is the least positive amount that reaches 56 modulo 64, and the result is whole blocks. */
  lemma PaddingShape(m: seq<Byte>)
    ensures var p := |Padding(|m|)|;
            1 <= p <= 64 && LeavesRoomForLength(|m| + p) && forall n | |m| < n < |m| + p :: !LeavesRoomForLength(n)
    ensures |Padded(m)| % 64 == 0
  {
    PadArithmetic(|m|, |Padding(|m|)|);
    forall n | |m| < n < |m| + |Padding(|m|)|
      ensures !LeavesRoomForLength(n)
    {
      NotYet(|m|, n);
    }
  }

  lemma PadArithmetic(n: nat, p: nat)
    requires p == if n % 64 < 56 then 56 - n % 64 else 120 - n % 64
    ensures (n + p) % 64 == 56 && (n + p + 8) % 64 == 0
  {}

  lemma NotYet(length: nat, n: nat)
    requires length < n < length + |Padding(length)|
    ensures n % 64 != 56
  {
    var r, d := length % 64, n - length;
    assert n % 64 == if r + d < 64 then r + d else r + d - 64;
  }

  predicate LeavesRoomForLength(n: nat) { n % 64 == 56 }

  // ----- What padding and digest are, byte by byte -----

  function LittleEndian(b: seq<Byte>): nat {
    if b == [] then 0 else b[0] + 256 * LittleEndian(b[1..])
  }

  /** Sections 3.1 and 3.2 of RFC 1321: the message, a one bit, the fewest zeros, and the length in bits. */
  predicate IsPadded(m: seq<Byte>, p: seq<Byte>) {
    && |p| % 64 == 0 && |m| + 9 <= |p| < |m| + 9 + 64
    && p[..|m|] == m && p[|m|] == 0x80
    && (forall i | |m| < i < |p| - 8 :: p[i] == 0)
    && LittleEndian(p[|p| - 8..]) == 8 * |m| % 0x1_0000_0000_0000_0000
  }

  /** Section 3.5: each word of the state begins with its low-order byte. */
  ghost predicate IsDigest(f: Compression, m: seq<Byte>, d: seq<Byte>) {
    |d| == 16 && exists p | IsPadded(m, p) ::
      forall i | 0 <= i < 4 :: LittleEndian(d[4 * i..4 * i + 4]) == Blocks(f, IV, p)[i]
  }

  lemma {:induction false} LittleEndianConcat(a: seq<Byte>, b: seq<Byte>, n: nat)
    requires n == Power256(|a|)
    ensures LittleEndian(a + b) == LittleEndian(a) + n * LittleEndian(b)
    ensures LittleEndian(a) < n
  {
    if a == [] {
      assert a + b == b;
    } else {
      assert (a + b)[1..] == a[1..] + b;
      LittleEndianConcat(a[1..], b, Power256(|a| - 1));
      Times256(Power256(|a| - 1), LittleEndian(b));
    }
  }

  lemma Times256(x: nat, y: nat)
    ensures 256 * (x * y) == 256 * x * y
  {
  }

  function Power256(n: nat): nat { if n == 0 then 1 else 256 * Power256(n - 1) }

  lemma WordBytes(w: Word)
    ensures LittleEndian(EncodeWord(w)) == w && Power256(4) == WORD
  {
    var b := EncodeWord(w);
    assert b[1..][1..] == b[2..] && b[2..][1..] == b[3..] && b[3..][1..] == [];
    var b1: int, b2: int, b3: int := b[1], b[2], b[3];
    assert LittleEndian(b[3..]) == b3 && LittleEndian(b[2..]) == b2 + 256 * b3;
    assert LittleEndian(b[1..]) == b1 + 256 * (b2 + 256 * b3);
    assert Power256(2) == 0x1_0000;
  }

  lemma LengthBytes(length: nat)
    ensures LittleEndian(LengthTag(length)) == 8 * length % 0x1_0000_0000_0000_0000
  {
    var lo, hi := 8 * length % WORD, 8 * length / WORD % WORD;
    WordBytes(lo);
    WordBytes(hi);
    LittleEndianConcat(EncodeWord(lo), EncodeWord(hi), WORD);
    TwoDigits(8 * length);
  }

  lemma TwoDigits(n: nat)
    ensures n % WORD + WORD * (n / WORD % WORD) == n % 0x1_0000_0000_0000_0000
  {
    var q := n / WORD;
    assert n == WORD * q + n % WORD && q == WORD * (q / WORD) + q % WORD;
    assert n == 0x1_0000_0000_0000_0000 * (q / WORD) + (WORD * (q % WORD) + n % WORD);
  }

  lemma PaddedIs(m: seq<Byte>)
    ensures IsPadded(m, Padded(m))
  {
    var p := Padded(m);
    PaddingShape(m);
    LengthBytes(|m|);
    hide LengthTag, LittleEndian;
    assert p[|p| - 8..] == LengthTag(|m|) && p[..|m|] == m;
    forall i | |m| < i < |p| - 8 ensures p[i] == 0 {
      assert p[i] == Padding(|m|)[i - |m|];
    }
  }

  /** Numbers of the same length are equal only byte by byte. */
  lemma {:induction false} LittleEndianOne(a: seq<Byte>, b: seq<Byte>)
    requires |a| == |b| && LittleEndian(a) == LittleEndian(b)
    ensures a == b
  {
    if a != [] {
      assert a[0] == LittleEndian(a) % 256 && b[0] == LittleEndian(b) % 256;
      LittleEndianOne(a[1..], b[1..]);
      assert a == [a[0]] + a[1..] && b == [b[0]] + b[1..];
    }
  }

  /** The description determines the padded message. */
  lemma PaddedOne(m: seq<Byte>, p: seq<Byte>)
    requires IsPadded(m, p)
    ensures p == Padded(m)
  {
    var q := Padded(m);
    PaddedIs(m);
    SameMultiple(|p|, |q|, |m| + 9);
    LittleEndianOne(p[|p| - 8..], q[|q| - 8..]);
    assert p == p[..|m|] + [p[|m|]] + p[|m| + 1..|p| - 8] + p[|p| - 8..];
    assert q == q[..|m|] + [q[|m|]] + q[|m| + 1..|q| - 8] + q[|q| - 8..];
    assert p[|m| + 1..|p| - 8] == q[|m| + 1..|q| - 8];
  }

  lemma SameMultiple(a: nat, b: nat, low: nat)
    requires a % 64 == 0 && b % 64 == 0 && low <= a < low + 64 && low <= b < low + 64
    ensures a == b
  {
  }

  /** And the digest. */
  lemma DigestIs(f: Compression, m: seq<Byte>, d: seq<Byte>)
    ensures IsDigest(f, m, d) <==> d == Digest(f, m)
  {
    var e := Digest(f, m);
    PaddedIs(m);
    var st := Blocks(f, IV, Padded(m));
    DigestWords(st);
    hide Blocks, IsPadded, Padded, EncodeWords, LittleEndian;
    if IsDigest(f, m, d) {
      var p :| IsPadded(m, p) && forall i | 0 <= i < 4 :: LittleEndian(d[4 * i..4 * i + 4]) == Blocks(f, IV, p)[i];
      PaddedOne(m, p);
      forall i | 0 <= i < 4 ensures d[4 * i..4 * i + 4] == e[4 * i..4 * i + 4] {
        assert LittleEndian(d[4 * i..4 * i + 4]) == st[i] == LittleEndian(e[4 * i..4 * i + 4]);
        LittleEndianOne(d[4 * i..4 * i + 4], e[4 * i..4 * i + 4]);
      }
      FourParts(d);
      FourParts(e);
    }
  }

  lemma FourParts(d: seq<Byte>)
    requires |d| == 16
    ensures d == d[4 * 0..4 * 0 + 4] + d[4 * 1..4 * 1 + 4] + d[4 * 2..4 * 2 + 4] + d[4 * 3..4 * 3 + 4]
  {
  }

  lemma DigestWords(st: State)
    ensures forall i | 0 <= i < 4 :: LittleEndian(EncodeWords(st)[4 * i..4 * i + 4]) == st[i]
  {
    forall i | 0 <= i < 4 ensures LittleEndian(EncodeWords(st)[4 * i..4 * i + 4]) == st[i] {
      WordAt(st, i);
      WordBytes(st[i]);
    }
  }

  lemma {:induction false} WordAt(ws: seq<Word>, i: nat)
    requires i < |ws|
    ensures EncodeWords(ws)[4 * i..4 * i + 4] == EncodeWord(ws[i])
  {
    hide EncodeWord;
    var rest := EncodeWords(ws[1..]);
    if i == 0 {
      assert EncodeWords(ws)[..4] == EncodeWord(ws[0]);
    } else {
      WordAt(ws[1..], i - 1);
      assert EncodeWords(ws)[4 * i..4 * i + 4] == rest[4 * (i - 1)..4 * (i - 1) + 4];
    }
  }

  /** Section 3.3: the words the state starts with, byte by byte. */
  lemma InitialBytes()
    ensures EncodeWords(IV) == [0x01, 0x23, 0x45, 0x67, 0x89, 0xab, 0xcd, 0xef,
                                0xfe, 0xdc, 0xba, 0x98, 0x76, 0x54, 0x32, 0x10]
  {
    hide EncodeWord;
    assert IV[1..] == [IV[1], IV[2], IV[3]] && IV[1..][1..] == [IV[2], IV[3]] && IV[1..][1..][1..] == [IV[3]];
    assert EncodeWords(IV[1..][1..][1..]) == EncodeWord(IV[3]) + [] by { assert [IV[3]][1..] == []; }
    assert EncodeWords(IV) == EncodeWord(IV[0]) + (EncodeWord(IV[1]) + (EncodeWord(IV[2]) + (EncodeWord(IV[3]) + [])));
    FirstWords();
  }

  lemma FirstWords()
    ensures EncodeWord(IV[0]) == [0x01, 0x23, 0x45, 0x67] && EncodeWord(IV[1]) == [0x89, 0xab, 0xcd, 0xef]
    ensures EncodeWord(IV[2]) == [0xfe, 0xdc, 0xba, 0x98] && EncodeWord(IV[3]) == [0x76, 0x54, 0x32, 0x10]
  {
  }

  // ----- Folding blocks -----

  lemma {:induction false} BlocksConcat(f: Compression, st: State, a: seq<Byte>, b: seq<Byte>)
    requires |a| % 64 == 0
    ensures Blocks(f, st, a + b) == Blocks(f, Blocks(f, st, a), b)
    decreases |a|
  {
    if a == [] {
      assert a + b == b;
    } else {
      assert (a + b)[..64] == a[..64] && (a + b)[64..] == a[64..] + b;
      BlocksConcat(f, f(st, a[..64]), a[64..], b);
    }
  }

  function Whole(n: nat): nat { n - n % 64 }

  /** The state depends on the whole blocks only. */
  lemma {:induction false} BlocksWhole(f: Compression, st: State, m: seq<Byte>)
    ensures Blocks(f, st, m[..Whole(|m|)]) == Blocks(f, st, m)
    decreases |m|
  {
    var w := m[..Whole(|m|)];
    if |m| >= 64 {
      assert w[..64] == m[..64] && w[64..] == m[64..][..Whole(|m[64..]|)];
      BlocksWhole(f, f(st, m[..64]), m[64..]);
    }
  }

  lemma OneBlock(f: Compression, st: State, b: seq<Byte>)
    requires |b| == 64
    ensures Blocks(f, st, b) == f(st, b)
  {
    assert b[..64] == b && Blocks(f, f(st, b), b[64..]) == f(st, b);
  }

  // ----- The two-word bit counter -----

  predicate Counts(count0: Word, count1: Word, length: nat) {
    count0 + WORD * count1 == 8 * length % (WORD * WORD)
  }

  /** `count[0] += len << 3` with carry, then `count[1] += len >> 29`. */
  lemma CountStep(count0: Word, count1: Word, length: nat, n: nat, low: Word, high: Word)
    requires Counts(count0, count1, length) && n < WORD
    requires var inc := 8 * n % WORD;
             && low == (count0 + inc) % WORD
             && high == ((if low < inc then (count1 + 1) % WORD else count1) + n / 0x2000_0000) % WORD
    ensures Counts(low, high, length + n)
  {
    var inc := 8 * n % WORD;
    var carry := if low < inc then 1 else 0;
    var wide := n / 0x2000_0000;
    BitsOf(n);
    assert count0 + inc == low + WORD * carry;
    var total := count1 + carry + wide;
    assert high == total % WORD;
    WideSum(length, n, count0, count1, inc, wide, low, carry, high, 8 * length / (WORD * WORD), total / WORD);
  }

  lemma WideSum(length: nat, n: nat, count0: Word, count1: Word, inc: nat, wide: nat, low: Word, carry: nat, high: Word, laps: nat, bits: nat)
    requires 8 * length == WORD * WORD * laps + count0 + WORD * count1
    requires 8 * n == inc + WORD * wide && count0 + inc == low + WORD * carry
    requires count1 + carry + wide == WORD * bits + high
    ensures Counts(low, high, length + n)
  {
    Remainder(8 * (length + n), laps + bits, low + WORD * high);
  }

  lemma BitsOf(n: nat)
    ensures 8 * n == 8 * n % WORD + WORD * (n / 0x2000_0000)
  {
  }

  lemma Remainder(n: nat, q: nat, r: nat)
    requires n == WORD * WORD * q + r && r < WORD * WORD
    ensures n % (WORD * WORD) == r && n / (WORD * WORD) == q
  {
  }

  /** Bytes in the buffer, from the low word alone. */
  lemma CountIndex(count0: Word, count1: Word, length: nat)
    requires Counts(count0, count1, length)
    ensures count0 / 8 % 64 == length % 64
    ensures count0 == 8 * length % WORD && count1 == 8 * length / WORD % WORD
  {
    var laps := 8 * length / (WORD * WORD);
    var above := WORD * laps + count1;
    assert 8 * length == WORD * above + count0;
    assert 8 * length / WORD == above;
    assert count0 / 8 == length - 0x2000_0000 * above;
    assert length == 64 * (0x80_0000 * above) + count0 / 8;
  }

  /** An update of n bytes after so many: with bytes in the buffer, both together stay below 2^32. */
  predicate Fits(length: nat, n: nat) { length % 64 == 0 || length % 64 + n < WORD }

  /** The test of the loop is wrong exactly where the update does not fit. */
  lemma Wraps(length: nat, i: nat, n: nat)
    requires (length + i) % 64 == 0 && i <= n < WORD
    ensures (i + 63) % WORD < n && i + 64 > n ==> !Fits(length, n)
    ensures (i + 63) % WORD >= n ==> i + 63 >= n && Fits(length, n)
  {
    var index := length % 64;
    assert (index + i) % 64 == 0 by {
      assert length + i == 64 * (length / 64) + (index + i);
    }
    var t := (index + i) / 64;
    assert index + i == 64 * t;
    if i + 63 >= WORD {
      assert (i + 63) % WORD == i + 63 - WORD;
    }
  }

  /** With one byte buffered, an update of the largest size does not fit: having filled the block and absorbed
      all the others, the loop test still holds at the very end of the input. */
  lemma LargestDoesNotFit()
    ensures !Fits(1, WORD - 1)
    ensures var n, i := WORD - 1, 63 + 64 * (WORD / 64 - 1); i == n && (i + 63) % WORD < n
  {
  }

  lemma BehindPrefix(m: seq<Byte>, input: seq<Byte>, i: nat, j: nat)
    requires i <= j <= |input|
    ensures (m + input)[|m| + i..|m| + j] == input[i..j]
  {
  }

  // ----- The context -----

  class Context {
    const compress: Compression
    var state: State
    var count0: Word
    var count1: Word
    const buffer: array<Byte>

    /** The context has absorbed exactly the message m. */
    ghost predicate Absorbed(m: seq<Byte>)
      reads this, buffer
    {
      && buffer.Length == 64
      && Counts(count0, count1, |m|)
      && state == Blocks(compress, IV, m)
      && buffer[..|m| % 64] == m[Whole(|m|)..]
    }

    /** MD5Init. */
    constructor (f: Compression)
      ensures compress == f && Absorbed([]) && fresh(buffer)
    {
      compress := f;
      count0, count1 := 0, 0;
      state := IV;
      buffer := new Byte[64];
    }

    /** MD5_memcpy into the buffer. */
    method Fill(at: nat, input: seq<Byte>)
      requires buffer.Length == 64 && at + |input| <= 64
      modifies buffer
      ensures buffer[..at + |input|] == old(buffer[..at]) + input
    {
      for i := 0 to |input|
        invariant buffer[..at + i] == old(buffer[..at]) + input[..i]
      {
        buffer[at + i] := input[i];
        assert input[..i + 1] == input[..i] + [input[i]];
        assert buffer[..at + (i + 1)] == buffer[..at + i] + [input[i]];
      }
      assert input[..|input|] == input;
    }

    /** The counter part of MD5Update. */
    method AddLength(n: nat, ghost length: nat)
      requires Counts(count0, count1, length) && n < WORD
      modifies this`count0, this`count1
      ensures Counts(count0, count1, length + n)
    {
      ghost var low, high := count0, count1;
      var inc := 8 * n % WORD;
      count0 := (count0 + inc) % WORD;
      if count0 < inc {
        count1 := (count1 + 1) % WORD;
      }
      count1 := (count1 + n / 0x2000_0000) % WORD;
      CountStep(low, high, length, n, count0, count1);
    }

    /** MD5Update: whatever was absorbed before, the input is absorbed after it; but where the sum `i + 63`
        wraps, the loop goes on behind the input, and this is said instead of what it reads there. */
    method Update(input: seq<Byte>, ghost m: seq<Byte>) returns (ok: bool)
      requires Absorbed(m) && |input| < WORD
      modifies this`state, this`count0, this`count1, buffer
      ensures ok <==> Fits(|m|, |input|)
      ensures ok ==> Absorbed(m + input)
    {
      hide Blocks, Counts;
      CountIndex(count0, count1, |m|);
      var index := count0 / 8 % 64;
      AddLength(|input|, |m|);
      var partLen := 64 - index;
      FillsBlock(|m|, partLen);
      if |input| >= partLen {
        Fill(index, input[..partLen]);
        FirstBlock(compress, m, input, partLen, buffer[..]);
        state := compress(state, buffer[..]);
        var i;
        ok, i := FullBlocks(input, partLen, m);
        if !ok { return; }
        Fill(0, input[i..]);
        LastBlock(compress, m + input, |m| + i);
        assert (m + input)[|m| + i..] == input[i..];
      } else {
        ok := true;
        Fill(index, input);
        NoBlock(compress, m, input);
      }
    }

    /** The loop over the blocks that lie entirely in the input, with the wrapping sum of its test. */
    method FullBlocks(input: seq<Byte>, from: nat, ghost m: seq<Byte>) returns (ok: bool, i: nat)
      requires from <= |input| < WORD && (|m| + from) % 64 == 0
      requires state == Blocks(compress, IV, (m + input)[..|m| + from])
      modifies this`state
      ensures ok <==> Fits(|m|, |input|)
      ensures ok ==> from <= i <= |input| < i + 64 && (|m| + i) % 64 == 0
      ensures ok ==> state == Blocks(compress, IV, (m + input)[..|m| + i])
    {
      hide Blocks;
      i := from;
      ghost var all := m + input;
      while (i + 63) % WORD < |input|
        invariant from <= i <= |input| && (|m| + i) % 64 == 0
        invariant state == Blocks(compress, IV, all[..|m| + i])
        decreases |input| - i
      {
        Wraps(|m|, i, |input|);
        if i + 64 > |input| {
          return false, i;
        }
        NextBlock(compress, all, |m| + i);
        BehindPrefix(m, input, i, i + 64);
        state := compress(state, input[i..i + 64]);
        i := i + 64;
      }
      Wraps(|m|, i, |input|);
      ok := true;
    }

    /** MD5Final: pad, append the length, and hand out the digest of what was absorbed. */
    method Final(ghost m: seq<Byte>) returns (digest: seq<Byte>)
      requires Absorbed(m)
      modifies this`state, this`count0, this`count1, buffer
      ensures IsDigest(compress, m, digest) && digest == Digest(compress, m)
      ensures state == [0, 0, 0, 0] && count0 == 0 && count1 == 0 && buffer[..] == Zeros(64)
    {
      hide Blocks, Counts, EncodeWords, EncodeWord;
      CountIndex(count0, count1, |m|);
      TwoWords(count0, count1);
      var bits := Encode([count0, count1]);
      var index := count0 / 8 % 64;
      var padLen := if index < 56 then 56 - index else 120 - index;
      var padding := [0x80] + Zeros(63);
      assert padding[..padLen] == Padding(|m|);
      var padded := Update(padding[..padLen], m);
      var counted := Update(bits, m + Padding(|m|));
      digest := Encode(state);
      DigestIs(compress, m, digest);
      Clear();
    }

    /** The zeroing at the end. */
    method Clear()
      requires buffer.Length == 64
      modifies this`state, this`count0, this`count1, buffer
      ensures state == [0, 0, 0, 0] && count0 == 0 && count1 == 0 && buffer[..] == Zeros(64)
    {
      for i := 0 to 64
        invariant forall k | 0 <= k < i :: buffer[k] == 0
      {
        buffer[i] := 0;
      }
      state, count0, count1 := [0, 0, 0, 0], 0, 0;
    }
  }

  lemma TwoWords(a: Word, b: Word)
    ensures EncodeWords([a, b]) == EncodeWord(a) + EncodeWord(b)
  {
    assert [a, b][1..] == [b] && [b][1..] == [];
  }

  lemma FillsBlock(n: nat, part: nat)
    requires part == 64 - n % 64
    ensures (n + part) % 64 == 0
  {}

  lemma FirstBlock(f: Compression, m: seq<Byte>, input: seq<Byte>, n: nat, block: seq<Byte>)
    requires n == 64 - |m| % 64 <= |input|
    requires block == m[Whole(|m|)..] + input[..n]
    ensures f(Blocks(f, IV, m), block) == Blocks(f, IV, (m + input)[..|m| + n])
  {
    var w := m[..Whole(|m|)];
    WholePlus(m, input, n);
    hide Blocks, Whole;
    BlocksWhole(f, IV, m);
    BlocksConcat(f, IV, w, block);
    OneBlock(f, Blocks(f, IV, w), block);
  }

  lemma WholePlus(m: seq<Byte>, input: seq<Byte>, n: nat)
    requires n == 64 - |m| % 64 <= |input|
    ensures Whole(|m|) <= |m| && Whole(|m|) % 64 == 0 && |m[Whole(|m|)..] + input[..n]| == 64
    ensures (m + input)[..|m| + n] == m[..Whole(|m|)] + (m[Whole(|m|)..] + input[..n])
  {
  }

  lemma NextBlock(f: Compression, all: seq<Byte>, at: nat)
    requires at % 64 == 0 && at + 64 <= |all|
    ensures Blocks(f, IV, all[..at + 64]) == f(Blocks(f, IV, all[..at]), all[at..at + 64])
  {
    BlocksConcat(f, IV, all[..at], all[at..at + 64]);
    OneBlock(f, Blocks(f, IV, all[..at]), all[at..at + 64]);
    assert all[..at + 64] == all[..at] + all[at..at + 64];
  }

  lemma LastBlock(f: Compression, all: seq<Byte>, at: nat)
    requires at % 64 == 0 && at <= |all| < at + 64
    ensures Blocks(f, IV, all) == Blocks(f, IV, all[..at]) && at == Whole(|all|)
  {
    hide Blocks;
    BlocksWhole(f, IV, all);
  }

  lemma NoBlock(f: Compression, m: seq<Byte>, input: seq<Byte>)
    requires |m| % 64 + |input| < 64
    ensures Blocks(f, IV, m + input) == Blocks(f, IV, m)
    ensures (m + input)[Whole(|m + input|)..] == m[Whole(|m|)..] + input
  {
    BlocksWhole(f, IV, m);
    BlocksWhole(f, IV, m + input);
    assert (m + input)[..Whole(|m|)] == m[..Whole(|m|)];
  }

  /** Encode: words to bytes, low-order byte first. */
  method Encode(input: seq<Word>) returns (output: seq<Byte>)
    ensures output == EncodeWords(input)
  {
    output := [];
    for i := 0 to |input|
      invariant output + EncodeWords(input[i..]) == EncodeWords(input)
    {
      assert input[i..][1..] == input[i + 1..];
      var bytes := Bytes(input[i]);
      output := output + bytes;
    }
  }

  method Bytes(w: Word) returns (b: seq<Byte>)
    ensures b == EncodeWord(w)
  {
    assert w / 0x1_0000 == w / 256 / 256 && w / 0x100_0000 == w / 256 / 256 / 256;
    b := [w % 256, w / 0x100 % 256, w / 0x1_0000 % 256, w / 0x100_0000 % 256];
  }

  /** Decode, and that it undoes Encode. */
  method Decode(input: seq<Byte>) returns (output: seq<Word>)
    requires |input| % 4 == 0
    ensures EncodeWords(output) == input
  {
    output := [];
    var j := 0;
    while j < |input|
      invariant 0 <= j <= |input| && j % 4 == 0
      invariant EncodeWords(output) == input[..j]
    {
      var w := Join(input[j], input[j + 1], input[j + 2], input[j + 3]);
      EncodeAppend(output, w);
      output := output + [w];
      assert EncodeWord(w) == input[j..j + 4];
      assert input[..j + 4] == input[..j] + input[j..j + 4];
      j := j + 4;
    }
    assert input[..j] == input;
  }

  function Join(b0: int, b1: int, b2: int, b3: int): (w: Word)
    requires 0 <= b0 < 256 && 0 <= b1 < 256 && 0 <= b2 < 256 && 0 <= b3 < 256
    ensures EncodeWord(w) == [b0, b1, b2, b3]
  {
    var w := b0 + 256 * (b1 + 256 * (b2 + 256 * b3));
    assert w / 256 == b1 + 256 * (b2 + 256 * b3) && w / 256 / 256 == b2 + 256 * b3;
    w
  }

  lemma {:induction false} EncodeAppend(ws: seq<Word>, w: Word)
    ensures EncodeWords(ws + [w]) == EncodeWords(ws) + EncodeWord(w)
  {
    if ws == [] {
      assert [] + [w] == [w] && [w][1..] == [];
    } else {
      assert (ws + [w])[1..] == ws[1..] + [w];
      EncodeAppend(ws[1..], w);
    }
  }

  function Concat(chunks: seq<seq<Byte>>): seq<Byte> {
    if chunks == [] then [] else chunks[0] + Concat(chunks[1..])
  }

  lemma {:induction false} ConcatAppend(chunks: seq<seq<Byte>>, c: seq<Byte>)
    ensures Concat(chunks + [c]) == Concat(chunks) + c
  {
    if chunks == [] {
      assert [] + [c] == [c] && Concat([c][1..]) == [];
    } else {
      assert (chunks + [c])[1..] == chunks[1..] + [c];
      ConcatAppend(chunks[1..], c);
    }
  }

  lemma ConcatPrefix(chunks: seq<seq<Byte>>, i: nat)
    requires i < |chunks|
    ensures Concat(chunks[..i + 1]) == Concat(chunks[..i]) + chunks[i]
  {
    ConcatAppend(chunks[..i], chunks[i]);
    assert chunks[..i + 1] == chunks[..i] + [chunks[i]];
  }

  lemma ConcatEnds(chunks: seq<seq<Byte>>)
    ensures Concat(chunks[..0]) == [] && Concat(chunks[..|chunks|]) == Concat(chunks)
  {
    assert chunks[..|chunks|] == chunks;
  }

  predicate ChunkFits(chunks: seq<seq<Byte>>, i: nat)
    requires i < |chunks|
  {
    Fits(|Concat(chunks[..i])|, |chunks[i]|)
  }

  /** However a message is cut into updates, the digest is that of the whole message, provided that every
      update fits behind what is buffered; and that is known in advance. */
  method Hash(c: Context, chunks: seq<seq<Byte>>) returns (ok: bool, digest: seq<Byte>)
    requires c.Absorbed([])
    requires forall i | 0 <= i < |chunks| :: |chunks[i]| < WORD
    modifies c, c.buffer
    ensures ok <==> forall i | 0 <= i < |chunks| :: ChunkFits(chunks, i)
    ensures ok ==> IsDigest(c.compress, Concat(chunks), digest)
  {
    hide Blocks, Counts, Concat, EncodeWords, Fits, Context.Absorbed, Digest;
    ConcatEnds(chunks);
    digest := [];
    for i := 0 to |chunks|
      invariant c.Absorbed(Concat(chunks[..i]))
      invariant forall k | 0 <= k < i :: ChunkFits(chunks, k)
    {
      ok := c.Update(chunks[i], Concat(chunks[..i]));
      assert ok <==> ChunkFits(chunks, i);
      if !ok { return; }
      ConcatPrefix(chunks, i);
    }
    ok := true;
    digest := c.Final(Concat(chunks));
  }
}
