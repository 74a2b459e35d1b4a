/**
The parser object of tools/nmealib_for_bd/parser.c: a fixed buffer with a fill mark, and a
queue of packet nodes linked from top_node to end_node.
*/
module NmeaParser {
  import opened Nmea
  import opened Options

  /** nmea_calc_crc. */
  method CalcCrc(buff: Text) returns (chsum: nat)
    ensures chsum == Crc(buff)
  {
    chsum := 0;
    for it := 0 to |buff|
      invariant chsum == Crc(buff[..it])
    {
      assert buff[..it + 1][..it] == buff[..it];
      chsum := XorByte(chsum, buff[it] as int);
    }
    assert buff[..|buff|] == buff;
  }

  /** nmea_find_tail on the part of the buffer from `from` to `to`. */
  method FindTailAt(buffer: array<Byte>, from: nat, to: nat) returns (nread: nat, resCrc: int)
    requires from <= to <= buffer.Length
    ensures (nread, resCrc) == FindTail(buffer[from..to])
    ensures nread <= to - from
  {
    hide Atoi2, XorByte;
    ghost var s := buffer[from..to];
    var i: nat, crc: nat := 0, 0;
    while i < to - from
      invariant i <= to - from && crc < 256
      invariant FindTail(s) == Scan(s, i, crc)
    {
      var c := buffer[from + i];
      assert s[i] == c;
      if c == '$' && i > 0 {
        return i, -1;
      } else if c == '*' {
        if from + i + 5 <= to && buffer[from + i + 3] == '\r' && buffer[from + i + 4] == '\n' {
          resCrc := Atoi2(buffer[from + i + 1], buffer[from + i + 2]);
          if resCrc != Signed(crc) {
            return i + 5, -1;
          }
          return if resCrc < 0 then 0 else i + 5, resCrc;
        }
        return 0, -1;
      } else if i > 0 {
        crc := XorByte(crc, c as int);
      }
      i := i + 1;
    }
    return 0, -1;
  }

  class Node<P> {
    const packet: Packet<P>
    var next: Node?<P>

    constructor (p: Packet<P>)
      ensures packet == p && next == null
    {
      packet, next := p, null;
    }
  }

  class Parser<P> {
    const decode: Decoder<P>
    const buffer: array<Byte>
    var buffUse: nat
    var topNode: Node?<P>
    var endNode: Node?<P>
    ghost var nodes: seq<Node<P>>

    /** top_node and end_node delimit a chain. */
    ghost predicate Chained()
      reads this, nodes
    {
      && (forall i, j | 0 <= i < j < |nodes| :: nodes[i] != nodes[j])
      && (forall i {:trigger nodes[i].next} | 0 <= i < |nodes| - 1 :: nodes[i].next == nodes[i + 1])
      && (if nodes == [] then topNode == null && endNode == null
          else topNode == nodes[0] && endNode == nodes[|nodes| - 1] && endNode.next == null)
    }

    ghost predicate Valid()
      reads this, buffer, nodes
    {
      Chained() && buffUse <= buffer.Length
    }

    ghost function Queue(): (q: seq<Packet<P>>)
      reads this
      ensures |q| == |nodes|
    {
      seq(|nodes|, i requires 0 <= i < |nodes| reads this => nodes[i].packet)
    }

    ghost function Abstract(): State<P>
      requires buffUse <= buffer.Length
      reads this, buffer
    {
      State(buffer[..buffUse], Queue())
    }

    /** nmea_parser_init, with a buffer of the configured size. */
    constructor (f: Decoder<P>, size: nat)
      ensures Valid() && decode == f && buffer.Length == (if size < 256 then 256 else size)
      ensures Abstract() == State([], []) && fresh(buffer) && nodes == []
    {
      decode := f;
      buffer := new Byte[if size < 256 then 256 else size];
      buffUse, topNode, endNode, nodes := 0, null, null, [];
    }

    /** Linking a node at the end. */
    method Append(p: Packet<P>)
      requires Chained()
      modifies this`topNode, this`endNode, this`nodes, nodes
      ensures Chained() && Queue() == old(Queue()) + [p]
      ensures forall i | 0 <= i < |nodes| :: nodes[i] in old(nodes) || fresh(nodes[i])
    {
      var node := new Node(p);
      if endNode != null {
        endNode.next := node;
      }
      endNode := node;
      if topNode == null {
        topNode := node;
      }
      nodes := nodes + [node];
    }

    /** nmea_parser_pop; nmea_parser_drop is the same without handing the packet out. */
    method Pop() returns (p: Option<Packet<P>>)
      requires Chained()
      modifies this`topNode, this`endNode, this`nodes
      ensures Chained()
      ensures if old(Queue()) == [] then p == None && Queue() == []
              else p == Some(old(Queue())[0]) && Queue() == old(Queue())[1..]
      ensures |nodes| == (if |old(nodes)| == 0 then 0 else |old(nodes)| - 1)
      ensures forall i | 0 <= i < |nodes| :: nodes[i] in old(nodes)
    {
      if topNode == null { return None; }
      p := Some(topNode.packet);
      topNode := topNode.next;
      if topNode == null {
        endNode := null;
      }
      nodes := nodes[1..];
    }

    /** nmea_parser_queue_clear. */
    method QueueClear()
      requires Chained()
      modifies this`topNode, this`endNode, this`nodes
      ensures Chained() && Queue() == []
    {
      while topNode != null
        invariant Chained()
        decreases |nodes|
      {
        var _ := Pop();
      }
    }

    /** memcpy to the end of the used part, after clearing it if the chunk would not fit. */
    method Load(chunk: Text)
      requires buffUse <= buffer.Length && |chunk| <= buffer.Length
      modifies this`buffUse, buffer
      ensures buffUse <= buffer.Length
      ensures buffer[..buffUse]
           == (if |old(buffer[..buffUse])| + |chunk| >= buffer.Length then chunk else old(buffer[..buffUse]) + chunk)
    {
      var use := if buffUse + |chunk| >= buffer.Length then 0 else buffUse;
      ghost var before := buffer[..use];
      for i := 0 to |chunk|
        invariant buffer[..use + i] == before + chunk[..i]
      {
        buffer[use + i] := chunk[i];
        assert buffer[..use + (i + 1)] == buffer[..use + i] + [chunk[i]];
        assert chunk[..i + 1] == chunk[..i] + [chunk[i]];
      }
      assert chunk[..|chunk|] == chunk;
      buffUse := use + |chunk|;
    }

    /** Moving the unconsumed bytes to the front. */
    method Compact(nparsed: nat)
      requires nparsed <= buffUse <= buffer.Length
      modifies this`buffUse, buffer
      ensures buffUse <= buffer.Length && buffer[..buffUse] == old(buffer[nparsed..buffUse])
    {
      ghost var s := buffer[..];
      var n := buffUse - nparsed;
      for i := 0 to n
        invariant forall k | 0 <= k < i :: buffer[k] == s[nparsed + k]
        invariant forall k | i <= k < buffer.Length :: buffer[k] == s[k]
      {
        buffer[i] := buffer[nparsed + i];
      }
      buffUse := n;
    }

    /** nmea_parser_real_push. */
    method RealPush(chunk: Text) returns (nparsed: nat)
      requires Valid() && |chunk| <= buffer.Length
      modifies this, buffer, nodes
      ensures Valid()
      ensures var (st, n) := Push(decode, buffer.Length, old(Abstract()), chunk); Abstract() == st && nparsed == n
      ensures var s := if |old(Abstract()).buffer| + |chunk| >= buffer.Length then chunk else old(Abstract()).buffer + chunk;
              forall garbage, p, rest | Arrives(s, garbage, p, rest) ::
                Queue() == old(Queue()) + (Queued(decode, p) + Drain(decode, rest).packets)
      ensures forall i | 0 <= i < |nodes| :: nodes[i] in old(nodes) || fresh(nodes[i])
    {
      hide Drain, Arrives, Queued;
      Load(chunk);
      ghost var s := buffer[..buffUse];
      assert Queue() == old(Queue());
      nparsed := ParseLoop(s);
      assert buffer[nparsed..buffUse] == s[nparsed..];
      ghost var queue := Queue();
      Compact(nparsed);
      assert Queue() == queue;
      assert Abstract() == State(Drain(decode, s).rest, old(Queue()) + Drain(decode, s).packets);
      forall garbage, p, rest | Arrives(s, garbage, p, rest)
        ensures Queue() == old(Queue()) + (Queued(decode, p) + Drain(decode, rest).packets)
      {
        FrameQueued(decode, s, garbage, p, rest);
      }
    }

    /** Its parse loop. */
    method ParseLoop(ghost s: Text) returns (nparsed: nat)
      requires Valid() && |s| == buffUse && buffer[..buffUse] == s
      modifies this`topNode, this`endNode, this`nodes, nodes
      ensures Valid() && nparsed <= |s|
      ensures Drain(decode, s).rest == s[nparsed..] && Queue() == old(Queue()) + Drain(decode, s).packets
      ensures forall i | 0 <= i < |nodes| :: nodes[i] in old(nodes) || fresh(nodes[i])
    {
      hide Drain, FindTail, Packets;
      nparsed := 0;
      ghost var found: seq<Packet<P>> := [];
      assert s[0..] == s && [] + Drain(decode, s).packets == Drain(decode, s).packets;
      while true
        invariant Valid() && nparsed <= |s|
        invariant Queue() == old(Queue()) + found
        invariant Drain(decode, s) == Drained(found + Drain(decode, s[nparsed..]).packets, Drain(decode, s[nparsed..]).rest)
        invariant forall i | 0 <= i < |nodes| :: nodes[i] in old(nodes) || fresh(nodes[i])
        decreases |s| - nparsed
      {
        var senSz, crc := FindTailAt(buffer, nparsed, buffUse);
        assert buffer[nparsed..buffUse] == s[nparsed..];
        DrainStep(decode, s, nparsed);
        if senSz == 0 {
          assert found + [] == found;
          return;
        }
        ghost var packets := Keep(nparsed, senSz, crc, s);
        DrainMore(found, packets, Drain(decode, s[nparsed + senSz..]));
        found := found + packets;
        nparsed := nparsed + senSz;
      }
    }

    /** The switch on the packet type. */
    method Keep(at: nat, senSz: nat, crc: int, ghost s: Text) returns (ghost packets: seq<Packet<P>>)
      requires Valid() && |s| == buffUse && buffer[..buffUse] == s && 0 < senSz <= buffUse - at && at <= buffUse
      modifies this`topNode, this`endNode, this`nodes, nodes
      ensures Valid() && packets == Packets(decode, s[at..], senSz, crc) && Queue() == old(Queue()) + packets
      ensures forall i | 0 <= i < |nodes| :: nodes[i] in old(nodes) || fresh(nodes[i])
    {
      packets := [];
      assert s[at..][1..] == s[at + 1..] == s[at + 1..buffUse] && s[at..][..senSz] == s[at..at + senSz];
      hide Classify;
      if crc >= 0 {
        PartOf(buffer, buffUse, at + 1, buffUse);
        PartOf(buffer, buffUse, at, at + senSz);
        var kind := Classify(buffer[at + 1..buffUse]);
        if kind == GPRMC || kind == GNRMC {
          var pack := decode(kind, buffer[at..at + senSz]);
          if pack.Some? {
            Append(Packet(kind, pack.value));
            packets := [Packet(kind, pack.value)];
          }
        }
      }
    }
  }

  lemma PartOf(buffer: array<Byte>, n: nat, i: nat, j: nat)
    requires i <= j <= n <= buffer.Length
    ensures buffer[..n][i..j] == buffer[i..j]
  {
  }

  lemma DrainStep<P>(decode: Decoder<P>, s: Text, at: nat)
    requires at <= |s|
    ensures var (n, crc) := FindTail(s[at..]);
            if n == 0 then Drain(decode, s[at..]) == Drained([], s[at..])
            else
              var d := Drain(decode, s[at + n..]);
              Drain(decode, s[at..]) == Drained(Packets(decode, s[at..], n, crc) + d.packets, d.rest)
  {
    hide FindTail, Packets;
    var n := FindTail(s[at..]).0;
    assert s[at..][n..] == s[at + n..];
  }

  lemma DrainMore<P>(found: seq<Packet<P>>, packets: seq<Packet<P>>, d: Drained<P>)
    ensures found + (packets + d.packets) == found + packets + d.packets
  {}

  // ----- nmea_printf -----

  const INT_MAX: int := 0x7FFF_FFFF
  const SIZE_WORD: int := 0x1_0000_0000  // size_t of the target

  /** A difference of two ints where a size_t is expected. */
  function ToSize(n: int): (r: nat)
    ensures 0 <= n < SIZE_WORD ==> r == n
    ensures -SIZE_WORD <= n < 0 ==> r == n + SIZE_WORD
  {
    (n + SIZE_WORD) % SIZE_WORD
  }

  /** How many bytes snprintf writes for this text, its terminator included. */
  function Extent(room: nat, length: nat): nat {
    if room == 0 then 0 else if length < room then length + 1 else room
  }

  /** What nmea_printf comes to: its return value, or the bytes `from` to `to`, counted from the start of the
      buffer, written behind it. */
  datatype Printed = Size(n: nat) | OutsideBuffer(from: nat, to: nat)

  /** snprintf into the buffer; false if the bytes to write do not all lie inside. */
  method Snprintf(buff: array<Byte>, at: nat, room: nat, text: Text) returns (inside: bool)
    modifies buff
    ensures inside <==> Extent(room, |text|) == 0 || at + Extent(room, |text|) <= buff.Length
    ensures !inside ==> buff[..] == old(buff[..])
    ensures inside && room > 0 ==>
              var n := Extent(room, |text|) - 1;
              && n <= |text| && at + n < buff.Length && buff[..at] == old(buff[..at]) && buff[at..at + n] == text[..n]
              && buff[at + n] == '\0' && buff[at + n + 1..] == old(buff[at + n + 1..])
    ensures inside && room == 0 ==> buff[..] == old(buff[..])
  {
    var count := Extent(room, |text|);
    if count == 0 { return true; }
    if at + count > buff.Length { return false; }
    for i := 0 to count - 1
      invariant forall k | 0 <= k < buff.Length :: buff[k] == if at <= k < at + i then text[k - at] else old(buff[k])
    {
      buff[at + i] := text[i];
    }
    buff[at + count - 1] := '\0';
    inside := true;
  }

  /** nmea_printf, once its payload is formatted: nothing for an empty one; the frame if it fits with its
      terminator; a frame cut by one byte when it fills the buffer exactly; blanks if it is too long, or longer
      than an int. When the payload alone is longer than the buffer, the tail goes behind it, for its start is
      there and its size has wrapped; `beyond` is the checksum of the bytes found up to there. */
  method Printf(buff: array<Byte>, payload: Text, beyond: nat) returns (r: Printed)
    requires buff.Length <= INT_MAX && beyond < 256
    modifies buff
    ensures r.OutsideBuffer? <==> 0 < buff.Length < |payload| <= INT_MAX
    ensures r.OutsideBuffer? ==> r.from == |payload| && r.to == |payload| + |CrcDigits(beyond)| + 4
    ensures var size := buff.Length;
            r.Size? ==>
              if size == 0 then r.n == 0
              else if payload == [] then r.n == 0 && buff[0] == '\0' && buff[1..] == old(buff[1..])
              else
                var f := Frame(payload);
                if |f| < size then r.n == |f| && buff[..|f|] == f && buff[|f|] == '\0'
                else r.n == size && (|f| == size ==> buff[..] == f[..size - 1] + ['\0'])
                     && (|f| > size ==> forall i | 0 <= i < size :: buff[i] == ' ')
  {
    var size := buff.Length;
    if size == 0 {
      return Size(0);
    }
    var _ := Snprintf(buff, 0, size, payload);
    var retval := if |payload| <= INT_MAX then |payload| else -1;
    if retval > 0 {
      if retval < size {
        assert buff[1..retval] == payload[1..];
      }
      var crc := beyond;
      if retval <= size {
        crc := CalcCrc(buff[1..retval]);
      }
      ghost var was := buff[..];
      var tail := "*" + CrcDigits(crc) + "\r\n";
      var room := ToSize(size - retval);
      var inside := Snprintf(buff, retval, room, tail);
      if !inside {
        return OutsideBuffer(retval, retval + Extent(room, |tail|));
      }
      if retval < size {
        FrameWritten(was, buff[..], payload, tail);
      }
      retval := retval + |tail|;
    }
    if retval < 0 || retval > size {
      Blank(buff);
      retval := size;
    }
    r := Size(retval);
  }

  /** `memset(buff, ' ', size)`. */
  method Blank(buff: array<Byte>)
    modifies buff
    ensures forall i | 0 <= i < buff.Length :: buff[i] == ' '
  {
    for i := 0 to buff.Length
      invariant forall k | 0 <= k < i :: buff[k] == ' '
    {
      buff[i] := ' ';
    }
  }

  /** Payload and tail, one behind the other, are the frame or its front. */
  lemma FrameWritten(was: Text, now: Text, payload: Text, tail: Text)
    requires 0 < |payload| < |was| == |now| && was[..|payload|] == payload && now[..|payload|] == was[..|payload|]
    requires tail == "*" + CrcDigits(Crc(payload[1..])) + "\r\n"
    requires var n := Extent(|was| - |payload|, |tail|) - 1; now[|payload|..|payload| + n] == tail[..n] && now[|payload| + n] == '\0'
    ensures var f := Frame(payload);
            && |f| == |payload| + |tail|
            && (|f| < |was| ==> now[..|f|] == f && now[|f|] == '\0')
            && (|f| == |was| ==> now == f[..|was| - 1] + ['\0'])
  {
    var f, p, n := Frame(payload), |payload|, Extent(|was| - |payload|, |tail|) - 1;
    hide Extent;
    assert f == payload + tail;
    assert now[..p + n] == now[..p] + now[p..p + n] == payload + tail[..n] == f[..p + n];
    if |f| == |was| {
      assert now == now[..p + n] + [now[p + n]];
    }
  }
}
