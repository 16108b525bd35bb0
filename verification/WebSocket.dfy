/** Sending and receiving frames as lib/ws.c does, over a connection that delivers bytes in order. */
module WebSocket {
  import opened Tasks
  import opened Frames

  /** A connection: what the peer will have sent when it stops and we have not read, and what we have sent. A read
    * waits for all the bytes it asks for, and gets fewer only when no more come; sends succeed. */
  class Connection {
    var incoming: seq<Byte>
    var outgoing: seq<Byte>

    /** antd_recv: how many bytes came, and which. */
    method Recv(len: int) returns (n: int, data: seq<Byte>)
      modifies `incoming
      ensures len <= 0 ==> n == 0 && data == [] && incoming == old(incoming)
      ensures len > 0 && old(incoming) == [] ==> n == -1 && data == [] && incoming == []
      ensures len > 0 && old(incoming) != [] ==>
                && n == |data| == Least(len, |old(incoming)|)
                && data == old(incoming)[..n] && incoming == old(incoming)[n..]
    {
      if len <= 0 {
        n, data := 0, [];
      } else if incoming == [] {
        n, data := -1, [];
      } else {
        n := Least(len, |incoming|);
        data, incoming := incoming[..n], incoming[n..];
      }
    }

    method Send(data: seq<Byte>) returns (n: int)
      modifies `outgoing
      ensures n == |data| && outgoing == old(outgoing) + data
    {
      n, outgoing := |data|, outgoing + data;
    }
  }

  /** A header in memory: ws_read_data counts its plen down. */
  class HeaderRecord {
    var header: Header

    constructor (header: Header)
      ensures this.header == header
    {
      this.header := header;
    }
  }

  /** ws_gen_mask_key: the four bytes of a random number. */
  function MaskKey(r: nat): Key { [r / 0x100_0000 % 0x100, r / 0x1_0000 % 0x100, r / 0x100 % 0x100, r % 0x100] }

  /** _send_header. */
  method SendHeader(client: Connection, h: Header) returns (r: int)
    requires h.plen < U32
    modifies client`outgoing
    ensures r == 0 && client.outgoing == old(client.outgoing) + HeaderBytes(h)
  {
    var was := client.outgoing;
    var n := client.Send([(h.fin * 128 + h.opcode) % 0x100]);
    if h.plen <= 125 {
      n := client.Send([(h.mask * 128 + h.plen) % 0x100]);
    } else if h.plen < 65536 {
      n := client.Send([(h.mask * 128 + 126) % 0x100]);
      n := client.Send([h.plen / 0x100, h.plen % 0x100]);
    } else {
      n := client.Send([(h.mask * 128 + 127) % 0x100]);
      n := client.Send([0, 0, 0, 0, h.plen / 0x100_0000, h.plen / 0x1_0000 % 0x100, h.plen / 0x100 % 0x100, h.plen % 0x100]);
    }
    assert client.outgoing == was + ([(h.fin * 128 + h.opcode) % 0x100] + LengthBytes(h.mask, h.plen));
    if h.mask != 0 {
      n := client.Send(h.key);
    }
    assert client.outgoing == was + HeaderBytes(h);
    r := 0;
  }

  /** The header a frame leaves with: a mask brings a fresh key. */
  function Keyed(h: Header, rand: nat): Header { if h.mask != 0 then h.(key := MaskKey(rand)) else h }

  /** ws_send_frame: the payload is the first plen bytes of data, which masking leaves alone. */
  method SendFrame(client: Connection, data: array<Byte>, header: Header, rand: nat) returns (r: int)
    requires header.plen <= data.Length && header.plen <= INT_MAX
    modifies client`outgoing
    ensures r == 0
    ensures client.outgoing == old(client.outgoing) + FrameBytes(Frame(Keyed(header, rand), data[..header.plen]))
  {
    var h := header;
    var masked := data;
    if h.mask != 0 {
      h := h.(key := MaskKey(rand));
      masked := new Byte[h.plen];
      for i := 0 to h.plen
        modifies masked
        invariant forall k | 0 <= k < i :: masked[k] == Xor(data[k], h.key[k % 4])
      {
        masked[i] := Xor(data[i], h.key[i % 4]);
      }
    }
    var wire := masked[..h.plen];
    assert h == Keyed(header, rand) && wire == Veiled(h, data[..h.plen]);
    hide HeaderBytes;
    r := SendHeader(client, h);
    var n := client.Send(wire);
    assert client.outgoing == old(client.outgoing) + (HeaderBytes(h) + wire);
  }

  /** ws_send_close: a status code, high byte first. */
  function CloseFrame(status: nat, mask: Byte, rand: nat): Frame
    requires status < 0x1_0000
  {
    Frame(Keyed(Header(1, CLOSE, 2, mask, [0, 0, 0, 0]), rand), [status / 0x100, status % 0x100])
  }

  method SendClose(client: Connection, status: nat, mask: Byte, rand: nat) returns (r: int)
    requires status < 0x1_0000
    modifies client`outgoing
    ensures r == 0 && client.outgoing == old(client.outgoing) + FrameBytes(CloseFrame(status, mask, rand))
  {
    var bytes := new Byte[2] [status / 0x100, status % 0x100];
    assert bytes[..2] == [status / 0x100, status % 0x100];
    r := SendFrame(client, bytes, Header(1, CLOSE, 2, mask, [0, 0, 0, 0]), rand);
  }

  /** ws_pong: the ping's payload, read and unmasked, goes back in a frame of its own. */
  function PongFrame(ping: Frame, mask: Byte, rand: nat): Frame {
    Frame(Keyed(Header(1, PONG, |ping.payload|, mask, [0, 0, 0, 0]), rand), ping.payload)
  }

  /** A 32-bit unsigned number as an int. */
  function Signed(n: nat): int { if n > INT_MAX then n - U32 else n }

  /** How many bytes ws_read_data asks for. */
  function Asked(plen: nat, len: int): int { if len == -1 || len > Signed(plen) then Signed(plen) else len }

  /** Where ws_read_data writes its null, given how many bytes are still to come: behind the bytes it got. */
  function NullAt(plen: nat, len: int, coming: nat): Option<nat> {
    if plen == 0 || Asked(plen, len) <= 0 || coming == 0 then None else Some(Least(Asked(plen, len), coming))
  }

  /** Whether the null lands inside a buffer. */
  predicate Inside(at: Option<nat>, room: nat) { at.Some? ==> at.value < room }

  /** ws_read_data: the next piece of a payload, unmasked with the key from its start, and a null behind it. The
    * buffer has room for what is asked for; whether it has room for the null is told by `inside`, and if not the
    * null is not written here. */
  method ReadData(client: Connection, h: HeaderRecord, len: int, data: array<Byte>) returns (n: int, inside: bool)
    requires h.header.plen < U32 && data.Length >= Asked(h.header.plen, len)
    modifies client`incoming, h, data
    ensures h.header == old(h.header).(plen := h.header.plen)
    ensures var at := NullAt(old(h.header.plen), len, |old(client.incoming)|);
            && inside == Inside(at, data.Length)
            && match at
               case None =>
                 && n == (if old(h.header.plen) == 0 then 0 else -1)
                 && h.header == old(h.header) && client.incoming == old(client.incoming)
               case Some(k) =>
                 && n == k && h.header.plen == old(h.header.plen) - k
                 && client.incoming == old(client.incoming)[k..]
                 && data[..k] == Veiled(h.header, old(client.incoming)[..k])
                 && (inside ==> data[k] == 0)
  {
    inside := true;
    if h.header.plen == 0 {
      return 0, true;
    }
    var dlen := if len == -1 || len > Signed(h.header.plen) then Signed(h.header.plen) else len;
    var received: seq<Byte>;
    dlen, received := client.Recv(dlen);
    if dlen <= 0 {
      return -1, true;
    }
    for i := 0 to dlen
      modifies data
      invariant data[..i] == received[..i]
    {
      data[i] := received[i];
    }
    h.header := h.header.(plen := h.header.plen - dlen);
    if h.header.mask != 0 {
      for i := 0 to dlen
        modifies data
        invariant forall k | 0 <= k < i :: data[k] == Xor(received[k], h.header.key[k % 4])
        invariant forall k | i <= k < dlen :: data[k] == received[k]
      {
        data[i] := Xor(data[i], h.header.key[i % 4]);
      }
    }
    assert data[..dlen] == Veiled(h.header, received);
    inside := dlen < data.Length;
    if inside {
      data[dlen] := 0;
    }
    n := dlen;
  }

  /** The first part of ws_read_header: the bytes are taken one field at a time, `stack` and `stale` being what the
    * memory they go to held before. */
  method ReadFields(client: Connection, stale: Key, stack: seq<Byte>) returns (h: Option<Header>)
    requires |stack| == 8
    modifies client`incoming
    ensures var heard := Heard(old(client.incoming), stale, stack);
            && h == (match heard case None => None case Some((h, _)) => Some(h))
            && (h.Some? ==> client.incoming == old(client.incoming)[heard.value.1..])
  {
    ghost var s := client.incoming;
    var n, byte := client.Recv(1);
    if n <= 0 {
      return None;
    }
    var first := byte[0];
    if first / 64 % 2 != 0 || first / 32 % 2 != 0 || first / 16 % 2 != 0 {
      return None;
    }
    RsvBits(first);
    n, byte := client.Recv(1);
    if n <= 0 {
      return None;
    }
    var second := byte[0];
    assert second == s[1] && client.incoming == s[2..];
    h := ReadRest(client, first, second, stale, stack, s);
  }

  lemma RsvBits(b: Byte)
    ensures b / 64 % 2 == 0 && b / 32 % 2 == 0 && b / 16 % 2 == 0 <==> b / 16 % 8 == 0
  {
  }

  /** The length behind the second byte, if any of it comes. */
  method ReadLength(client: Connection, short: nat, stack: seq<Byte>, ghost s: seq<Byte>)
    returns (ok: bool, plen: nat, ghost got: seq<Byte>)
    requires |stack| == 8 && |s| >= 2 && short < 128 && client.incoming == s[2..]
    modifies client`incoming
    ensures got == s[2..Least(2 + Extra(short), |s|)] && client.incoming == s[2 + |got|..]
    ensures ok == !(Extra(short) > 0 && got == []) && (ok ==> plen == HeardLength(short, Over(got, stack)))
  {
    var n := 0;
    var bytes: seq<Byte> := [];
    if short > 125 {
      n, bytes := client.Recv(if short == 126 then 2 else 8);
    }
    got := bytes;
    assert got == s[2..Least(2 + Extra(short), |s|)];
    ok, plen := true, short;
    if short > 125 && n <= 0 {
      ok := false;
    } else if short == 126 {
      bytes := Over(bytes, stack);
      plen := 0x100 * (bytes[0] as nat) + bytes[1];
    } else if short > 126 {
      bytes := Over(bytes, stack);
      plen := 0x100_0000 * (bytes[4] as nat) + 0x1_0000 * (bytes[5] as nat) + 0x100 * (bytes[6] as nat) + bytes[7];
    }
  }

  method ReadRest(client: Connection, first: Byte, second: Byte, stale: Key, stack: seq<Byte>, ghost s: seq<Byte>)
    returns (h: Option<Header>)
    requires |stack| == 8 && |s| >= 2 && first == s[0] && second == s[1] && first / 16 % 8 == 0
    requires client.incoming == s[2..]
    modifies client`incoming
    ensures var heard := Heard(s, stale, stack);
            && h == (match heard case None => None case Some((h, _)) => Some(h))
            && (h.Some? ==> client.incoming == s[heard.value.1..])
  {
    hide HeardLength;
    var fin, opcode, mask := first / 128 % 2, first % 16, second / 128 % 2;
    ghost var field;
    var ok, plen;
    ok, plen, field := ReadLength(client, second % 128, stack, s);
    if !ok {
      return None;
    }
    ghost var at := 2 + |field|;
    var key := stale;
    if mask != 0 {
      var n, got := client.Recv(4);
      if n <= 0 {
        return None;
      }
      assert got == s[at..Least(at + 4, |s|)] && client.incoming == s[at + |got|..];
      key := Over(got, stale);
    }
    h := Some(Header(fin, opcode, plen, mask, key));
  }

  /** ws_pong. The buffer it allocates has no room for the null: `inside` tells whether one was due. If so, what
    * follows here is what the code goes on to do when the stray null does no harm. */
  method Pong(client: Connection, ping: HeaderRecord, mask: Byte, rand: nat) returns (r: int, inside: bool)
    requires ping.header.plen < U32
    modifies client, ping
    ensures inside == PongFits(old(ping.header.plen), |old(client.incoming)|)
    ensures var h, s := old(ping.header), old(client.incoming);
            h.plen <= INT_MAX && h.plen <= |s| ==>
              && ping.header == h.(plen := 0) && client.incoming == s[h.plen..]
              && client.outgoing
                 == old(client.outgoing) + FrameBytes(PongFrame(Frame(h, Veiled(h, s[..h.plen])), mask, rand))
  {
    PongFitsIff(ping.header.plen, |client.incoming|);
    var plen := ping.header.plen;
    var data := new Byte[plen];
    var n;
    n, inside := ReadData(client, ping, Signed(plen), data);
    if n == -1 {
      return -1, inside;
    }
    r := SendFrame(client, data, Header(1, PONG, plen, mask, [0, 0, 0, 0]), rand);
  }

  /** No null is due inside ws_pong, or one that fits. */
  predicate PongFits(plen: nat, coming: nat) { plen == 0 || plen > INT_MAX || coming < plen }

  /** The write of ws_read_data stays inside the buffer of ws_pong if and only if the ping is empty, too long for an
    * int, or not all there. */
  lemma PongFitsIff(plen: nat, coming: nat)
    requires plen < U32
    ensures Inside(NullAt(plen, Signed(plen), coming), plen) <==> PongFits(plen, coming)
  {
  }

  /** A ping of one byte, all there, is enough to write past the end. */
  lemma OneBytePingOverruns(stale: Key)
    ensures var ping := Frame(Header(1, PING, 1, 1, [1, 2, 3, 4]), [7]);
            && ParseFrame(FrameBytes(ping), stale) == Some((ping, |FrameBytes(ping)|))
            && NullAt(1, Signed(1), 1) == Some(1) && !Inside(Some(1), 1)
  {
    var ping := Frame(Header(1, PING, 1, 1, [1, 2, 3, 4]), [7]);
    FrameRoundTrip(ping, stale, []);
    assert FrameBytes(ping) + [] == FrameBytes(ping);
  }

  /** What reading a frame's header sends back by itself. */
  function Reply(f: Frame, rand: nat): seq<Byte> {
    var mask := if f.header.mask != 0 then 0 else 1;
    if f.header.opcode == CLOSE then FrameBytes(CloseFrame(1000, mask, rand))
    else if f.header.opcode == PING then FrameBytes(PongFrame(f, mask, rand))
    else []
  }

  /** ws_read_header: a close is answered in kind; a ping is answered and its payload is gone with it. `inside` tells
    * whether answering stayed inside its buffer. */
  method ReadHeader(client: Connection, stale: Key, stack: seq<Byte>, rand: nat)
    returns (h: HeaderRecord?, inside: bool)
    requires |stack| == 8
    modifies client
    ensures h == null <==> Heard(old(client.incoming), stale, stack).None?
    ensures h == null ==> inside && client.outgoing == old(client.outgoing)
    ensures h != null ==>
              var Some((header, n)) := Heard(old(client.incoming), stale, stack);
              var s := old(client.incoming)[n..];
              && fresh(h)
              && inside == (header.opcode == PING ==> PongFits(header.plen, |s|))
              && (header.opcode != PING ==>
                    && h.header == header && client.incoming == s
                    && client.outgoing == old(client.outgoing) + Reply(Frame(header, []), rand))
              && (header.opcode == PING && header.plen <= INT_MAX && header.plen <= |s| ==>
                    && h.header == header.(plen := 0) && client.incoming == s[header.plen..]
                    && client.outgoing
                       == old(client.outgoing) + Reply(Frame(header, Veiled(header, s[..header.plen])), rand))
  {
    inside := true;
    var fields := ReadFields(client, stale, stack);
    if fields == None {
      return null, true;
    }
    h := new HeaderRecord(fields.value);
    var mask := if h.header.mask != 0 then 0 else 1;
    var r;
    if h.header.opcode == CLOSE {
      r := SendClose(client, 1000, mask, rand);
    } else if h.header.opcode == PING {
      r, inside := Pong(client, h, mask, rand);
    }
  }

  /** What the application is left with: of a ping, only the header. */
  function Seen(f: Frame): Frame {
    if f.header.opcode == PING then Frame(f.header.(plen := 0), []) else f
  }

  /** Receiving this frame whole keeps to every buffer. */
  predicate Harmless(f: Frame) { f.header.opcode == PING ==> f.payload == [] }

  /** A header, then all of its payload, into a buffer with room for the null. */
  method ReceiveFrame(client: Connection, stale: Key, stack: seq<Byte>, rand: nat) returns (f: Option<Frame>, inside: bool)
    requires |stack| == 8
    modifies client
    ensures var s := old(client.incoming);
            ParseFrame(s, stale).Some? && ParseFrame(s, stale).value.0.header.plen <= INT_MAX ==>
              var (whole, n) := ParseFrame(s, stale).value;
              && inside == Harmless(whole)
              && f == Some(Seen(whole)) && client.incoming == s[n..]
              && client.outgoing == old(client.outgoing) + Reply(whole, rand)
  {
    hide ParseHeader, ParseFrame, Heard, FrameBytes, CloseFrame, PongFrame, Masked;
    ghost var s := client.incoming;
    PartsOfFrame(s, stale, stack);
    var h;
    h, inside := ReadHeader(client, stale, stack, rand);
    if h == null {
      return None, inside;
    }
    var header := h.header;
    if ParseFrame(s, stale).Some? && ParseFrame(s, stale).value.0.header.plen <= INT_MAX {
      ghost var (said, at) := Heard(s, stale, stack).value;
      assert said == ParseFrame(s, stale).value.0.header && said.plen <= |s[at..]|;
      assert header.plen <= said.plen;
    }
    if header.plen > INT_MAX {
      return None, inside;
    }
    var data := new Byte[header.plen + 1];
    var n, fits := ReadData(client, h, -1, data);
    if n == -1 {
      return None, inside;
    }
    f := Some(Frame(header, data[..n]));
    if ParseFrame(s, stale).Some? && ParseFrame(s, stale).value.0.header.plen <= INT_MAX {
      ghost var whole := ParseFrame(s, stale).value.0;
      ghost var at := Heard(s, stale, stack).value.1;
      ghost var rest := s[at..];
      assert whole.header == Heard(s, stale, stack).value.0 && whole.header.plen <= |rest|;
      assert whole.header.opcode == PING ==> n == 0 && data[..n] == [];
      assert whole.header.opcode != PING ==> n == whole.header.plen && data[..n] == whole.payload;
      assert client.incoming == rest[whole.header.plen..];
      assert f == Some(Seen(whole));
    }
  }

  /** A frame that is all there, as its header and what follows it. */
  lemma PartsOfFrame(s: seq<Byte>, stale: Key, stack: seq<Byte>)
    requires |stack| == 8
    ensures ParseFrame(s, stale).Some? ==>
              var heard := Heard(s, stale, stack);
              && heard.Some?
              && var (h, n) := heard.value;
              && n + h.plen <= |s|
              && ParseFrame(s, stale).value == (Frame(h, Veiled(h, s[n..][..h.plen])), n + h.plen)
              && s[n..][h.plen..] == s[n + h.plen..]
  {
    if ParseFrame(s, stale).Some? {
      WholeIsHeard(s, stale, stack);
      hide ParseHeader, Heard, Veiled;
      var (h, n) := ParseHeader(s, stale).value;
      assert s[n..][..h.plen] == s[n..n + h.plen];
    }
  }

  /** One ws_read_data for d bytes, into a buffer with room for the null. */
  method ReadPiece(client: Connection, h: HeaderRecord, d: nat, ghost wire: seq<Byte>, ghost o: nat, ghost rest: seq<Byte>)
    returns (piece: seq<Byte>)
    requires 0 < d && o + d <= |wire| <= INT_MAX
    requires h.header.plen == |wire| - o && client.incoming == wire[o..] + rest
    modifies client`incoming, h
    ensures piece == Veiled(h.header, wire[o..o + d]) && |piece| == d
    ensures h.header == old(h.header).(plen := |wire| - (o + d)) && client.incoming == wire[o + d..] + rest
  {
    FrontOfWire(wire, o, d, rest);
    var data := new Byte[d + 1];
    var n, inside := ReadData(client, h, d, data);
    piece := data[..d];
  }

  /** A payload as an application reads it that wants pieces of these lengths: one ws_read_data for each. */
  method ReadPayload(client: Connection, h: HeaderRecord, lens: seq<nat>, ghost wire: seq<Byte>, ghost rest: seq<Byte>)
    returns (got: seq<Byte>)
    requires h.header.plen == Total(lens) == |wire| <= INT_MAX && client.incoming == wire + rest
    requires forall i | 0 <= i < |lens| :: lens[i] > 0
    modifies client`incoming, h
    ensures h.header == old(h.header).(plen := 0) && client.incoming == rest
    ensures got == InPieces(old(h.header), wire, 0, lens)
  {
    hide Veiled, InPieces;
    ghost var header := h.header;
    got := [];
    ghost var o: nat := 0;
    FromTheFront(header, wire, lens, rest);
    for i := 0 to |lens|
      invariant o <= |wire| && o + Total(lens[i..]) == |wire|
      invariant h.header == header.(plen := |wire| - o) && client.incoming == wire[o..] + rest
      invariant InPieces(header, wire, 0, lens) == got + InPieces(header, wire, o, lens[i..])
    {
      var d := lens[i];
      OneMorePiece(header, wire, o, lens, i, got);
      var piece := ReadPiece(client, h, d, wire, o, rest);
      SameVeil(header, h.header.plen, wire[o..o + d]);
      got := got + piece;
      o := o + d;
    }
    NoMorePieces(header, wire, o, lens, got, rest);
  }

  /** The same for a whole frame. Everything is taken off the wire; what the pieces make together is the payload if
    * and only if there is no mask or all pieces are in step. */
  method ReadPieces(client: Connection, stale: Key, stack: seq<Byte>, rand: nat, lens: seq<nat>,
                    ghost f: Frame, ghost rest: seq<Byte>)
    returns (h: HeaderRecord?, got: seq<Byte>)
    requires |stack| == 8 && Sound(f) && f.header.opcode != PING
    requires client.incoming == FrameBytes(f) + rest
    requires Total(lens) == |f.payload| && forall i | 0 <= i < |lens| :: lens[i] > 0
    modifies client
    ensures h != null && h.header == Sent(f.header, stale).(plen := 0) && client.incoming == rest
    ensures got == f.payload <==> f.header.mask == 0 || PiecesInStep(f.header.key, 0, lens)
    ensures Fours(lens) ==> got == f.payload
  {
    HeaderInFront(f, stale, stack, rest);
    hide Heard, FrameBytes, HeaderBytes, Reply, Veiled, InPieces, PiecesInStep, Fours;
    var inside;
    h, inside := ReadHeader(client, stale, stack, rand);
    got := ReadPayload(client, h, lens, Veiled(f.header, f.payload), rest);
    WholeInPieces(f, stale, lens);
  }

  lemma WholeInPieces(f: Frame, stale: Key, lens: seq<nat>)
    requires Total(lens) == |f.payload|
    ensures var got := InPieces(Sent(f.header, stale), Veiled(f.header, f.payload), 0, lens);
            && (got == f.payload <==> f.header.mask == 0 || PiecesInStep(f.header.key, 0, lens))
            && (Fours(lens) ==> got == f.payload)
  {
    var h := Sent(f.header, stale);
    assert Veiled(f.header, f.payload) == Veiled(h, f.payload);
    WholeFromPieces(h, f.payload, 0, lens);
    assert f.payload[0..] == f.payload;
    if Fours(lens) {
      FoursAreInStep(f.header.key, 0, lens);
    }
  }

  lemma SameVeil(h: Header, plen: nat, s: seq<Byte>)
    ensures Veiled(h.(plen := plen), s) == Veiled(h, s)
  {
  }

  lemma FromTheFront(h: Header, wire: seq<Byte>, lens: seq<nat>, rest: seq<Byte>)
    requires Total(lens) == |wire|
    ensures lens[0..] == lens && wire[0..] + rest == wire + rest
    ensures InPieces(h, wire, 0, lens) == [] + InPieces(h, wire, 0, lens[0..])
  {
    assert lens[0..] == lens;
  }

  lemma OneMorePiece(h: Header, wire: seq<Byte>, o: nat, lens: seq<nat>, i: nat, got: seq<Byte>)
    requires i < |lens| && o + Total(lens[i..]) == |wire|
    ensures o + lens[i] + Total(lens[i + 1..]) == |wire|
    ensures got + InPieces(h, wire, o, lens[i..])
         == (got + Veiled(h, wire[o..o + lens[i]])) + InPieces(h, wire, o + lens[i], lens[i + 1..])
  {
    assert lens[i..][0] == lens[i] && lens[i..][1..] == lens[i + 1..];
    var piece, more := Veiled(h, wire[o..o + lens[i]]), InPieces(h, wire, o + lens[i], lens[i + 1..]);
    assert InPieces(h, wire, o, lens[i..]) == piece + more;
    hide *;
    assert got + (piece + more) == (got + piece) + more;
  }

  lemma NoMorePieces(h: Header, wire: seq<Byte>, o: nat, lens: seq<nat>, got: seq<Byte>, rest: seq<Byte>)
    requires o + Total(lens[|lens|..]) == |wire|
    ensures o == |wire| && wire[o..] + rest == rest
    ensures got + InPieces(h, wire, o, lens[|lens|..]) == got
  {
    assert lens[|lens|..] == [];
  }

  lemma FrontOfWire(wire: seq<Byte>, o: nat, d: nat, rest: seq<Byte>)
    requires o + d <= |wire|
    ensures (wire[o..] + rest)[..d] == wire[o..o + d] && (wire[o..] + rest)[d..] == wire[o + d..] + rest
  {
  }

  lemma HeaderInFront(f: Frame, stale: Key, stack: seq<Byte>, rest: seq<Byte>)
    requires |stack| == 8 && Sound(f)
    ensures var s := FrameBytes(f) + rest;
            var n := |HeaderBytes(f.header)|;
            && Heard(s, stale, stack) == Some((Sent(f.header, stale), n))
            && s[n..] == Veiled(f.header, f.payload) + rest
  {
    var body := Veiled(f.header, f.payload) + rest;
    HeaderRoundTrip(f.header, stale, body);
    assert FrameBytes(f) + rest == HeaderBytes(f.header) + body;
    WholeIsHeard(FrameBytes(f) + rest, stale, stack);
    hide Heard, ParseHeader, HeaderBytes;
  }

  function Replies(fs: seq<Frame>, rands: nat -> nat): seq<Byte> {
    if fs == [] then [] else Replies(fs[..|fs| - 1], rands) + Reply(fs[|fs| - 1], rands(|fs| - 1))
  }

  function AllSeen(fs: seq<Frame>): (r: seq<Frame>)
    ensures |r| == |fs|
  {
    seq(|fs|, i requires 0 <= i < |fs| => Seen(fs[i]))
  }

  /** The next frame of a stream of sound frames. */
  lemma NextFrame(f: Frame, stale: Key, rest: seq<Byte>, rand: nat)
    requires Sound(f)
    ensures ParseFrame(FrameBytes(f) + rest, stale) == Some((Delivered(f, stale), |FrameBytes(f)|))
    ensures (FrameBytes(f) + rest)[|FrameBytes(f)|..] == rest
    ensures Reply(Delivered(f, stale), rand) == Reply(f, rand) && Harmless(Delivered(f, stale)) == Harmless(f)
  {
    FrameRoundTrip(f, stale, rest);
  }

  lemma ReplyOfOneMore(fs: seq<Frame>, i: nat, rands: nat -> nat)
    requires i < |fs|
    ensures Replies(fs[..i + 1], rands) == Replies(fs[..i], rands) + Reply(fs[i], rands(i))
  {
    assert fs[..i + 1][..i] == fs[..i];
  }

  /** Whatever frames were sent: if no ping among them has a payload, and only then, receiving them keeps to every
    * buffer, and then the same frames are received, in order and with the same payloads, and each close and each
    * ping has been answered. */
  method ReceiveAll(client: Connection, stale: Key, stack: seq<Byte>, rands: nat -> nat, ghost fs: seq<Frame>, count: nat)
    returns (got: seq<Frame>, inside: bool)
    requires |stack| == 8 && count == |fs| && client.incoming == StreamBytes(fs)
    requires forall f | f in fs :: Sound(f)
    modifies client
    ensures inside <==> forall f | f in fs :: Harmless(f)
    ensures inside ==>
              && got == AllSeen(AllDelivered(fs, stale)) && client.incoming == []
              && client.outgoing == old(client.outgoing) + Replies(fs, rands)
  {
    hide FrameBytes, ParseFrame, Reply, Seen, Replies, Harmless;
    got, inside := [], true;
    ghost var was := client.outgoing;
    NoReply(rands);
    assert fs[..0] == [] && fs[0..] == fs;
    for i := 0 to count
      invariant inside && |got| == i
      invariant forall k | 0 <= k < i :: got[k] == Seen(Delivered(fs[k], stale)) && Harmless(fs[k])
      invariant client.incoming == StreamBytes(fs[i..])
      invariant client.outgoing == was + Replies(fs[..i], rands)
    {
      assert fs[i..][0] == fs[i] && fs[i..][1..] == fs[i + 1..];
      NextFrame(fs[i], stale, StreamBytes(fs[i + 1..]), rands(i));
      ReplyOfOneMore(fs, i, rands);
      var f;
      f, inside := ReceiveFrame(client, stale, stack, rands(i));
      if !inside {
        assert !Harmless(fs[i]) && fs[i] in fs;
        return;
      }
      got := got + [f.value];
    }
    assert fs[..count] == fs && fs[count..] == [];
  }

  lemma NoReply(rands: nat -> nat)
    ensures Replies([], rands) == []
  {
  }
}
