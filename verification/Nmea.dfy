/**
The NMEA framer of tools/nmealib_for_bd: finding sentences in a byte stream, whatever the
sizes of the chunks it arrives in. One `char` is one byte; checksums are kept as the low byte
of the C `int`, whose sign is that of the byte because `char` is signed there.
*/
module Nmea {
  import opened Bits
  import opened Options
  import opened Utf8

  /** nmeaPACKTYPE. */
  datatype PackType = GPNON | GPGGA | GPGSA | GPGSV | GPRMC | GPVTG | GNRMC

  type Byte = c: char | c as int < 256 witness 'a'
  type Text = seq<Byte>

  // ----- Checksums -----

  function Signed(x: nat): int { if x < 128 then x else x - 256 }

  /** nmea_calc_crc. */
  function Crc(s: Text): (x: nat)
    ensures x < 256
  {
    if s == [] then 0 else XorByte(Crc(s[..|s| - 1]), s[|s| - 1] as int)
  }

  function XorByte(x: nat, y: nat): (z: nat)
    requires x < 256 && y < 256
    ensures z < 256 && (z >= 128 <==> (x >= 128) != (y >= 128))
  {
    XorTop(x, y, 7);
    assert Pow2(7) == 128;
    Xor(x, y)
  }

  /** The top bit of an exclusive or. */
  lemma {:induction false} XorTop(x: nat, y: nat, n: nat)
    requires x < 2 * Pow2(n) && y < 2 * Pow2(n)
    ensures Xor(x, y) < 2 * Pow2(n)
    ensures Xor(x, y) >= Pow2(n) <==> (x >= Pow2(n)) != (y >= Pow2(n))
  {
    if n > 0 {
      XorTop(x / 2, y / 2, n - 1);
    }
  }

  // ----- Recognising sentences -----

  predicate IsSpace(c: char) { c == ' ' || '\t' <= c <= '\r' }

  /** nmea_atoi(s, 2, 16), that is, strtol on two characters. */
  function Atoi2(c1: char, c2: char): (v: int)
    ensures -16 < v < 256
  {
    var low := if HexValue(c2) < 0 then 0 else HexValue(c2);
    if IsSpace(c1) || c1 == '+' then low
    else if c1 == '-' then -low
    else if HexValue(c1) < 0 then 0
    else if HexValue(c2) < 0 then HexValue(c1)
    else 16 * HexValue(c1) + HexValue(c2)
  }

  /** From position i of nmea_find_tail, with checksum x: the bytes to consume and the checksum,
      which is negative unless a sentence with a matching one ends there. */
  function Scan(s: Text, i: nat, x: nat): (r: (nat, int))
    requires i <= |s| && x < 256
    ensures r.0 <= |s|
    decreases |s| - i
  {
    if i == |s| then (0, -1)
    else if s[i] == '$' && i > 0 then (i, -1)
    else if s[i] == '*' then
      if i + 5 <= |s| && s[i + 3] == '\r' && s[i + 4] == '\n' then
        var v := Atoi2(s[i + 1], s[i + 2]);
        if v != Signed(x) then (i + 5, -1) else if v < 0 then (0, v) else (i + 5, v)
      else (0, -1)
    else Scan(s, i + 1, if i > 0 then XorByte(x, s[i] as int) else x)
  }

  /** nmea_find_tail. */
  function FindTail(s: Text): (r: (nat, int))
    ensures r.0 <= |s|
  {
    Scan(s, 0, 0)
  }

  /** nmea_pack_type. */
  function Classify(s: Text): PackType {
    if |s| < 5 then GPNON
    else if s[..5] == "GPGGA" then GPGGA
    else if s[..5] == "GPGSA" then GPGSA
    else if s[..5] == "GPGSV" then GPGSV
    else if s[..5] == "GPRMC" then GPRMC
    else if s[..5] == "GPVTG" then GPVTG
    else if s[..5] == "GNRMC" then GNRMC
    else GPNON
  }

  /** The field decoder of a sentence (nmea_parse_GPRMC, nmea_parse_GNRMC) is a parameter. */
  type Decoder<!P> = (PackType, Text) -> Option<P>

  datatype Packet<P> = Packet(kind: PackType, pack: P)

  /** What one recognised stretch adds to the queue: only RMC sentences are kept. */
  function Packets<P>(decode: Decoder<P>, s: Text, n: nat, crc: int): seq<Packet<P>>
    requires 0 < n <= |s|
  {
    if crc < 0 then []
    else
      var kind := Classify(s[1..]);
      if kind != GPRMC && kind != GNRMC then []
      else
        match decode(kind, s[..n])
        case None => []
        case Some(p) => [Packet(kind, p)]
  }

  datatype Drained<P> = Drained(packets: seq<Packet<P>>, rest: Text)

  /** The parse loop of nmea_parser_real_push. */
  function Drain<P>(decode: Decoder<P>, s: Text): (d: Drained<P>)
    ensures |d.rest| <= |s|
    decreases |s|
  {
    var (n, crc) := FindTail(s);
    if n == 0 then Drained([], s)
    else
      var d := Drain(decode, s[n..]);
      Drained(Packets(decode, s, n, crc) + d.packets, d.rest)
  }

  // ----- More bytes never change what was found -----

  lemma {:induction false} ScanStable(s: Text, t: Text, i: nat, x: nat)
    requires i <= |s| && x < 256
    ensures Scan(s, i, x).0 > 0 ==> Scan(s + t, i, x) == Scan(s, i, x)
    decreases |s| - i
  {
    hide Atoi2, XorByte;
    if i < |s| && !(s[i] == '$' && i > 0) && s[i] != '*' {
      ScanStable(s, t, i + 1, if i > 0 then XorByte(x, s[i] as int) else x);
    }
  }

  /** A checked sentence ends five bytes after a star. */
  lemma {:induction false} ScanChecked(s: Text, i: nat, x: nat)
    requires i <= |s| && x < 256 && Scan(s, i, x).1 >= 0
    ensures var n := Scan(s, i, x).0;
            i + 5 <= n && s[n - 5] == '*' && s[n - 2] == '\r' && s[n - 1] == '\n'
    decreases |s| - i
  {
    hide Atoi2, XorByte;
    if i < |s| && !(s[i] == '$' && i > 0) && s[i] != '*' {
      ScanChecked(s, i + 1, if i > 0 then XorByte(x, s[i] as int) else x);
    }
  }

  lemma PacketsStable<P>(decode: Decoder<P>, s: Text, t: Text)
    requires FindTail(s).0 > 0
    ensures FindTail(s + t) == FindTail(s)
    ensures Packets(decode, s + t, FindTail(s).0, FindTail(s).1) == Packets(decode, s, FindTail(s).0, FindTail(s).1)
  {
    var (n, crc) := FindTail(s);
    ScanStable(s, t, 0, 0);
    assert (s + t)[..n] == s[..n];
    if crc >= 0 {
      ScanChecked(s, 0, 0);
      if |s| >= 6 {
        assert (s + t)[1..][..5] == s[1..][..5];
      } else {
        assert n == 5 && (s + t)[3] == '\r';
        assert |(s + t)[1..]| >= 5 ==> (s + t)[1..][..5][2] == '\r';
      }
    }
  }

  /** Draining a+b is draining a, then draining what it left together with b. */
  lemma {:induction false} DrainConcat<P>(decode: Decoder<P>, a: Text, b: Text)
    ensures var d := Drain(decode, a);
            var e := Drain(decode, d.rest + b);
            Drain(decode, a + b) == Drained(d.packets + e.packets, e.rest)
    decreases |a|
  {
    var (n, crc) := FindTail(a);
    if n == 0 {
      var e := Drain(decode, a + b);
      assert [] + e.packets == e.packets;
    } else {
      PacketsStable(decode, a, b);
      assert (a + b)[n..] == a[n..] + b;
      hide FindTail, Packets;
      DrainConcat(decode, a[n..], b);
      var d := Drain(decode, a[n..]);
      var e := Drain(decode, d.rest + b);
      ThreeParts(Packets(decode, a, n, crc), d.packets, e.packets);
    }
  }

  lemma ThreeParts<T>(a: seq<T>, b: seq<T>, c: seq<T>)
    ensures a + (b + c) == a + b + c
  {
  }

  // ----- The parser's state -----

  datatype State<P> = State(buffer: Text, queue: seq<Packet<P>>)

  /** nmea_parser_real_push: the new state and the number of bytes consumed. */
  function Push<P>(decode: Decoder<P>, size: nat, st: State<P>, chunk: Text): (State<P>, nat) {
    var s := if |st.buffer| + |chunk| >= size then chunk else st.buffer + chunk;
    var d := Drain(decode, s);
    (State(d.rest, st.queue + d.packets), |s| - |d.rest|)
  }

  /** A chunk that reaches the limit with what is buffered takes its place: the old bytes are lost. */
  lemma PushFull<P>(decode: Decoder<P>, size: nat, st: State<P>, chunk: Text)
    requires |st.buffer| + |chunk| >= size
    ensures Push(decode, size, st, chunk) == Push(decode, |chunk| + 1, State([], st.queue), chunk)
  {
    assert [] + chunk == chunk;
  }

  /** Chunk independence: one push or two, as long as the buffer limit is not reached. */
  lemma PushSplit<P>(decode: Decoder<P>, size: nat, st: State<P>, a: Text, b: Text)
    requires |st.buffer| + |a| + |b| < size
    ensures var (st1, n1) := Push(decode, size, st, a);
            var (st2, n2) := Push(decode, size, st1, b);
            Push(decode, size, st, a + b) == (st2, n1 + n2)
  {
    var d := Drain(decode, st.buffer + a);
    var e := Drain(decode, d.rest + b);
    DrainConcat(decode, st.buffer + a, b);
    hide Drain;
    assert st.buffer + (a + b) == st.buffer + a + b;
    assert st.queue + (d.packets + e.packets) == st.queue + d.packets + e.packets;
  }

  function Join(chunks: seq<Text>): Text {
    if chunks == [] then [] else chunks[0] + Join(chunks[1..])
  }

  function PushAll<P>(decode: Decoder<P>, size: nat, st: State<P>, chunks: seq<Text>): (State<P>, nat)
    decreases |chunks|
  {
    if chunks == [] then (st, 0)
    else
      var (st1, n1) := Push(decode, size, st, chunks[0]);
      var (st2, n2) := PushAll(decode, size, st1, chunks[1..]);
      (st2, n1 + n2)
  }

  /** The buffer holds nothing that could be consumed: true of a new parser and after every push. */
  predicate Settled(buffer: Text) { FindTail(buffer).0 == 0 }

  lemma {:induction false} DrainSettles<P>(decode: Decoder<P>, s: Text)
    ensures Settled(Drain(decode, s).rest)
    decreases |s|
  {
    if FindTail(s).0 > 0 {
      DrainSettles(decode, s[FindTail(s).0..]);
    }
  }

  lemma PushSettles<P>(decode: Decoder<P>, size: nat, st: State<P>, chunk: Text)
    ensures var buffer := Push(decode, size, st, chunk).0.buffer;
            Settled(buffer) && |buffer| <= |st.buffer| + |chunk|
  {
    DrainSettles(decode, if |st.buffer| + |chunk| >= size then chunk else st.buffer + chunk);
  }

  /** No push reaches the buffer limit with what the ones before it left. */
  predicate Room<P>(decode: Decoder<P>, size: nat, st: State<P>, chunks: seq<Text>)
    decreases |chunks|
  {
    chunks == [] || (|st.buffer| + |chunks[0]| < size && Room(decode, size, Push(decode, size, st, chunks[0]).0, chunks[1..]))
  }

  /** What is left of a stream and found in it, behind a buffer. */
  function Whole<P>(decode: Decoder<P>, st: State<P>, s: Text): (State<P>, nat) {
    var d := Drain(decode, st.buffer + s);
    (State(d.rest, st.queue + d.packets), |st.buffer + s| - |d.rest|)
  }

  /** However long a stream is and however it is cut, pushing it gives what draining all of it gives. */
  lemma {:induction false} ChunksAreDrained<P>(decode: Decoder<P>, size: nat, st: State<P>, chunks: seq<Text>)
    requires Settled(st.buffer) && Room(decode, size, st, chunks)
    ensures PushAll(decode, size, st, chunks) == Whole(decode, st, Join(chunks))
    decreases |chunks|
  {
    hide Settled, Push, Whole, Drain, FindTail;
    if chunks == [] {
      NothingWhole(decode, st);
    } else {
      var st1 := Push(decode, size, st, chunks[0]).0;
      PushSettles(decode, size, st, chunks[0]);
      ChunksAreDrained(decode, size, st1, chunks[1..]);
      WholeSplit(decode, size, st, chunks[0], Join(chunks[1..]));
    }
  }

  lemma NothingWhole<P>(decode: Decoder<P>, st: State<P>)
    requires Settled(st.buffer)
    ensures Whole(decode, st, []) == (st, 0)
  {
    assert st.buffer + [] == st.buffer && st.queue + [] == st.queue;
  }

  lemma WholeSplit<P>(decode: Decoder<P>, size: nat, st: State<P>, a: Text, b: Text)
    requires |st.buffer| + |a| < size
    ensures var (st1, n1) := Push(decode, size, st, a);
            var (st2, n2) := Whole(decode, st1, b);
            Whole(decode, st, a + b) == (st2, n1 + n2)
  {
    var d := Drain(decode, st.buffer + a);
    var e := Drain(decode, d.rest + b);
    DrainConcat(decode, st.buffer + a, b);
    hide Drain;
    assert st.buffer + (a + b) == st.buffer + a + b;
    assert st.queue + (d.packets + e.packets) == st.queue + d.packets + e.packets;
  }

  /** So the cuts make no difference, on streams of any length. */
  lemma ChunksDoNotMatter<P>(decode: Decoder<P>, size: nat, st: State<P>, chunks: seq<Text>, others: seq<Text>)
    requires Settled(st.buffer) && Room(decode, size, st, chunks) && Room(decode, size, st, others)
    requires Join(chunks) == Join(others)
    ensures PushAll(decode, size, st, chunks) == PushAll(decode, size, st, others)
  {
    ChunksAreDrained(decode, size, st, chunks);
    ChunksAreDrained(decode, size, st, others);
  }

  /** A stream that is shorter than the buffer has room however it is cut, and can be pushed in one piece. */
  lemma {:induction false} ShortStream<P>(decode: Decoder<P>, size: nat, st: State<P>, chunks: seq<Text>)
    requires Settled(st.buffer) && |st.buffer| + |Join(chunks)| < size
    ensures Room(decode, size, st, chunks)
    ensures PushAll(decode, size, st, chunks) == Push(decode, size, st, Join(chunks))
    decreases |chunks|
  {
    if chunks != [] {
      PushSettles(decode, size, st, chunks[0]);
      hide Push, Settled, PushAll, Whole, Drain, FindTail;
      ShortStream(decode, size, Push(decode, size, st, chunks[0]).0, chunks[1..]);
    }
    PushIsWhole(decode, size, st, Join(chunks));
    ChunksAreDrained(decode, size, st, chunks);
  }

  lemma PushIsWhole<P>(decode: Decoder<P>, size: nat, st: State<P>, s: Text)
    requires |st.buffer| + |s| < size
    ensures Push(decode, size, st, s) == Whole(decode, st, s)
  {
    hide Drain;
  }

  // ----- Frames -----

  /** `%02x` of the checksum. */
  function CrcDigits(x: nat): Text
    requires x < 256
  {
    var d: Text := [LowHex(x / 16), LowHex(x % 16)];
    if x < 128 then d else "ffffff" + d
  }

  function LowHex(d: nat): (c: Byte)
    requires d < 16
    ensures HexValue(c) == d && !IsSpace(c) && c != '+' && c != '-' && c != '\r'
  {
    HexDigit(d)
  }

  /** What nmea_printf makes of a formatted payload. */
  function Frame(payload: Text): Text
    requires payload != []
  {
    payload + "*" + CrcDigits(Crc(payload[1..])) + "\r\n"
  }

  predicate Payload(p: Text) {
    p != [] && p[0] == '$' && forall i | 1 <= i < |p| :: p[i] != '$' && p[i] != '*'
  }

  lemma {:induction false} ScanPayload(p: Text, t: Text, i: nat)
    requires Payload(p) && 1 <= i <= |p|
    ensures Scan(p + t, i, Crc(p[1..i])) == Scan(p + t, |p|, Crc(p[1..]))
    decreases |p| - i
  {
    hide XorByte, Atoi2;
    if i < |p| {
      var c := p[1..i + 1];
      assert c[..|c| - 1] == p[1..i] && c[|c| - 1] == p[i];
      ScanPayload(p, t, i + 1);
    } else {
      assert p[1..i] == p[1..];
    }
  }

  /** A frame is recognised with its exact length and checksum exactly when the checksum's sign bit
      is clear; a frame with a negative checksum is never recognised. */
  lemma FrameFound(p: Text, rest: Text)
    requires Payload(p)
    ensures var x := Crc(p[1..]);
            var r := FindTail(Frame(p) + rest);
            if x < 128 then r.0 == |Frame(p)| && r.1 == x else r.0 == 0 && r.1 == -1
  {
    var x := Crc(p[1..]);
    var t := "*" + CrcDigits(x) + "\r\n" + rest;
    assert Frame(p) + rest == p + t;
    assert p[1..1] == [];
    ScanPayload(p, t, 1);
    var s := p + t;
    assert s[|p|] == '*' && s[|p| + 1..|p| + 1 + |CrcDigits(x)|] == CrcDigits(x);
    if x < 128 {
      assert s[|p| + 1] == LowHex(x / 16) && s[|p| + 2] == LowHex(x % 16);
      assert s[|p| + 3] == '\r' && s[|p| + 4] == '\n';
    } else {
      assert s[|p| + 3] == 'f';
    }
  }

  /** The frame that nmea_printf leaves when it fits exactly, its last byte overwritten by the terminator,
      is never recognised, and the parser waits behind it whatever follows. */
  lemma FrameCut(p: Text, rest: Text)
    requires Payload(p)
    ensures var f := Frame(p); FindTail(f[..|f| - 1] + ['\0'] + rest) == (0, -1)
  {
    var f, x := Frame(p), Crc(p[1..]);
    var t := "*" + CrcDigits(x) + "\r" + ['\0'] + rest;
    assert f[..|f| - 1] + ['\0'] + rest == p + t;
    assert p[1..1] == [];
    ScanPayload(p, t, 1);
    var s := p + t;
    assert s[|p|] == '*' && s[|p| + 1..|p| + 1 + |CrcDigits(x)|] == CrcDigits(x);
    assert s[|p| + 3] == 'f' || s[|p| + 4] == '\0';
  }

  /** The sign bit counts the bytes outside ASCII. */
  function HighBytes(s: Text): nat {
    if s == [] then 0 else HighBytes(s[..|s| - 1]) + if s[|s| - 1] as int >= 128 then 1 else 0
  }

  lemma {:induction false} CrcSign(s: Text)
    ensures Crc(s) < 128 <==> HighBytes(s) % 2 == 0
  {
    if s != [] {
      CrcSign(s[..|s| - 1]);
    }
  }

  lemma {:induction false} ScanGarbage(s: Text, i: nat, x: nat, at: nat)
    requires x < 256 && i <= at < |s| && at > 0 && s[at] == '$'
    requires forall k | i <= k < at :: s[k] != '*'
    ensures var (n, crc) := Scan(s, i, x);
            crc == -1 && 0 < n <= at && i <= n && s[n] == '$'
    decreases at - i
  {
    hide XorByte, Atoi2;
    if i < at && !(s[i] == '$' && i > 0) {
      ScanGarbage(s, i + 1, if i > 0 then XorByte(x, s[i] as int) else x, at);
    }
  }

  /** Garbage without a star is skipped up to the frame and not further. */
  lemma {:induction false} GarbageSkipped<P>(decode: Decoder<P>, garbage: Text, p: Text, rest: Text)
    requires Payload(p) && Crc(p[1..]) < 128
    requires forall k | 0 <= k < |garbage| :: garbage[k] != '*'
    ensures var d := Drain(decode, rest);
            var f := Frame(p);
            Drain(decode, garbage + f + rest)
            == Drained(Packets(decode, f, |f|, Crc(p[1..])) + d.packets, d.rest)
    decreases |garbage|
  {
    var f := Frame(p);
    var s := garbage + f + rest;
    if garbage == [] {
      assert s == f + rest && s[|f|..] == rest;
      FrameFound(p, []);
      assert f + [] == f;
      PacketsStable(decode, f, rest);
    } else {
      assert s[|garbage|] == '$';
      ScanGarbage(s, 0, 0, |garbage|);
      var n := FindTail(s).0;
      assert s[n..] == garbage[n..] + f + rest;
      GarbageSkipped(decode, garbage[n..], p, rest);
      var d := Drain(decode, s[n..]);
      assert [] + d.packets == d.packets;
    }
  }

  // ----- Sentences by their letters and digits -----

  /** Whatever the two digits behind the star: a sentence is accepted if they are its checksum and its sign bit
      is clear, and otherwise skipped as a whole. */
  lemma DigitsDecide(p: Text, c1: Byte, c2: Byte, rest: Text)
    requires Payload(p) && HexValue(c1) >= 0 && HexValue(c2) >= 0
    ensures var v := 16 * HexValue(c1) + HexValue(c2);
            FindTail(p + ("*" + [c1, c2] + "\r\n") + rest) == (|p| + 5, if v == Crc(p[1..]) && v < 128 then v else -1)
  {
    var t := "*" + [c1, c2] + "\r\n" + rest;
    var s := p + t;
    assert p + ("*" + [c1, c2] + "\r\n") + rest == s && p[1..1] == [];
    ScanPayload(p, t, 1);
    assert s[|p|] == '*' && s[|p| + 1] == c1 && s[|p| + 2] == c2 && s[|p| + 3] == '\r' && s[|p| + 4] == '\n';
  }

  /** Behind the star, strtol also takes a blank or a plus in front of one digit, a digit with anything behind it,
      a minus for a negative number, and no digit for 0. */
  lemma OddDigits(p: Text, c1: Byte, c2: Byte, rest: Text)
    requires Payload(p) && (HexValue(c1) < 0 || HexValue(c2) < 0)
    ensures var x := Crc(p[1..]);
            var low := if HexValue(c2) < 0 then 0 else HexValue(c2);
            var v := if c1 in " \t\n\U{B}\U{C}\r+" then low else if c1 == '-' then 0 - low else if HexValue(c1) >= 0 then HexValue(c1) else 0;
            FindTail(p + ("*" + [c1, c2] + "\r\n") + rest)
            == if v != (if x < 128 then x else x - 256) then (|p| + 5, -1) else if v < 0 then (0, v) else (|p| + 5, v)
  {
    var t := "*" + [c1, c2] + "\r\n" + rest;
    var s := p + t;
    assert p + ("*" + [c1, c2] + "\r\n") + rest == s && p[1..1] == [];
    ScanPayload(p, t, 1);
    assert s[|p|] == '*' && s[|p| + 1] == c1 && s[|p| + 2] == c2 && s[|p| + 3] == '\r' && s[|p| + 4] == '\n';
  }

  /** A sentence that is skipped adds nothing, and what follows it is read as if it had not been there. */
  lemma WrongDigitsSkipped<P>(decode: Decoder<P>, p: Text, c1: Byte, c2: Byte, rest: Text)
    requires Payload(p) && HexValue(c1) >= 0 && HexValue(c2) >= 0
    requires 16 * HexValue(c1) + HexValue(c2) != Crc(p[1..]) || Crc(p[1..]) >= 128
    ensures Drain(decode, p + ("*" + [c1, c2] + "\r\n") + rest) == Drain(decode, rest)
  {
    var s := p + ("*" + [c1, c2] + "\r\n") + rest;
    DigitsDecide(p, c1, c2, rest);
    assert s[|p| + 5..] == rest;
    var d := Drain(decode, rest);
    assert [] + d.packets == d.packets;
  }

  /** The two sentences that are queued. */
  const GPRMC_HEAD: Text := "GPRMC"
  const GNRMC_HEAD: Text := "GNRMC"

  /** What a recognised frame adds to the queue: the packet the decoder makes of it if it is one of the two RMC
      sentences, and nothing else. */
  function Queued<P>(decode: Decoder<P>, p: Text): seq<Packet<P>> {
    if |p| < 6 then []
    else if p[1..6] == GPRMC_HEAD && decode(GPRMC, Frame(p)).Some? then [Packet(GPRMC, decode(GPRMC, Frame(p)).value)]
    else if p[1..6] == GNRMC_HEAD && decode(GNRMC, Frame(p)).Some? then [Packet(GNRMC, decode(GNRMC, Frame(p)).value)]
    else []
  }

  lemma FramePackets<P>(decode: Decoder<P>, p: Text)
    requires Payload(p) && Crc(p[1..]) < 128
    ensures Packets(decode, Frame(p), |Frame(p)|, Crc(p[1..])) == Queued(decode, p)
  {
    var f := Frame(p);
    assert f[..|f|] == f && f[|p|] == '*';
    if |p| < 6 {
      assert |f[1..]| >= 5 ==> f[1..][..5][|p| - 1] == '*';
    } else {
      assert f[1..][..5] == p[1..6];
    }
  }

  /** Bytes that end up in the buffer: no star, a frame with the sign bit of its checksum clear, and anything. */
  predicate Arrives(s: Text, garbage: Text, p: Text, rest: Text) {
    Payload(p) && Crc(p[1..]) < 128 && s == garbage + Frame(p) + rest && forall k | 0 <= k < |garbage| :: garbage[k] != '*'
  }

  lemma FrameQueued<P>(decode: Decoder<P>, s: Text, garbage: Text, p: Text, rest: Text)
    requires Arrives(s, garbage, p, rest)
    ensures Drain(decode, s) == Drained(Queued(decode, p) + Drain(decode, rest).packets, Drain(decode, rest).rest)
  {
    GarbageSkipped(decode, garbage, p, rest);
    FramePackets(decode, p);
  }

  function Bit(x: nat, k: nat): (b: nat)
    ensures b < 2
  {
    if k == 0 then x % 2 else Bit(x / 2, k - 1)
  }

  /** In how many bytes the k-th bit is set. */
  function BitCount(s: Text, k: nat): nat {
    if s == [] then 0 else BitCount(s[..|s| - 1], k) + Bit(s[|s| - 1] as int, k)
  }

  lemma {:induction false} NoBits(k: nat)
    ensures Bit(0, k) == 0
  {
    if k > 0 {
      NoBits(k - 1);
    }
  }

  lemma {:induction false} XorBit(x: nat, y: nat, k: nat)
    ensures Bit(Xor(x, y), k) == (Bit(x, k) + Bit(y, k)) % 2
  {
    NoBits(k);
    if x > 0 && y > 0 && k > 0 {
      XorBit(x / 2, y / 2, k - 1);
      assert Xor(x, y) / 2 == Xor(x / 2, y / 2);
    }
  }

  /** Every bit of the checksum is the parity of that bit over the bytes. */
  lemma {:induction false} CrcBits(s: Text, k: nat)
    ensures Bit(Crc(s), k) == BitCount(s, k) % 2
  {
    NoBits(k);
    if s != [] {
      CrcBits(s[..|s| - 1], k);
      XorBit(Crc(s[..|s| - 1]), s[|s| - 1] as int, k);
      hide Xor, Bit;
    }
  }
}
