/** ws_send_file of lib/ws.c: a file sent as one fragmented binary message (RFC 6455, section 5.4). */
module FileTransfer {
  import opened Tasks
  import opened Frames
  import opened WebSocket

  const BUFFER: nat := 1024

  /** A file opened for reading. The end is noticed only by a read that comes up short. */
  class File {
    const bytes: seq<Byte>
    var at: nat
    var eof: bool

    ghost predicate Valid()
      reads this
    {
      at <= |bytes|
    }

    constructor (bytes: seq<Byte>)
      ensures Valid() && this.bytes == bytes && at == 0 && !eof
    {
      this.bytes, at, eof := bytes, 0, false;
    }

    /** fread of up to n bytes. */
    method Read(buff: array<Byte>, n: nat) returns (size: nat)
      requires Valid() && n <= buff.Length
      modifies this`at, this`eof, buff
      ensures Valid() && at == old(at) + size
      ensures size == if |bytes| - old(at) < n then |bytes| - old(at) else n
      ensures eof <==> old(eof) || size < n
      ensures buff[..size] == bytes[old(at)..at]
    {
      size := if |bytes| - at < n then |bytes| - at else n;
      for i := 0 to size
        modifies buff
        invariant buff[..i] == bytes[at..at + i]
      {
        buff[i] := bytes[at + i];
      }
      at := at + size;
      eof := eof || size < n;
    }
  }

  function Fragment(piece: seq<Byte>, k: nat, mask: Byte, rand: nat): Frame {
    Frame(Keyed(Header(if |piece| < BUFFER then 1 else 0, if k == 0 then BIN else 0, |piece|, mask, [0, 0, 0, 0]), rand),
          piece)
  }

  /** The frames still to be sent when k are out and `rest` is unread. */
  function Fragments(rest: seq<Byte>, k: nat, mask: Byte, rands: nat -> nat): (fs: seq<Frame>)
    ensures |fs| == |rest| / BUFFER + 1
    decreases |rest|
  {
    if |rest| < BUFFER then [Fragment(rest, k, mask, rands(k))]
    else [Fragment(rest[..BUFFER], k, mask, rands(k))] + Fragments(rest[BUFFER..], k + 1, mask, rands)
  }

  function Payload(fs: seq<Frame>): seq<Byte> {
    if fs == [] then [] else fs[0].payload + Payload(fs[1..])
  }

  /** Section 5.4: the first frame carries the opcode and the others none, and only the last is final. */
  predicate IsMessage(fs: seq<Frame>, opcode: Byte) {
    && fs != []
    && forall i | 0 <= i < |fs| ::
         && fs[i].header.opcode == (if i == 0 then opcode else 0)
         && fs[i].header.fin == (if i == |fs| - 1 then 1 else 0)
  }

  /** Every file makes such a message, the empty file and whole multiples of the buffer too: its pieces put
    * together are the file, and no piece but the last is short of the buffer. */
  lemma {:induction false} FileIsOneMessage(rest: seq<Byte>, k: nat, mask: Byte, rands: nat -> nat)
    requires mask <= 1
    ensures var fs := Fragments(rest, k, mask, rands);
            && Payload(fs) == rest
            && IsMessage(fs, if k == 0 then BIN else 0)
            && (forall f | f in fs :: Sound(f) && f.header.mask == mask)
            && (forall i | 0 <= i < |fs| - 1 :: |fs[i].payload| == BUFFER)
    decreases |rest|
  {
    hide Payload, Fragment, IsMessage, Sound;
    FragmentIsSound(rest, k, mask, rands);
    if |rest| < BUFFER {
      MessageOfOne(Fragment(rest, k, mask, rands(k)));
    } else {
      var f, later := Fragment(rest[..BUFFER], k, mask, rands(k)), Fragments(rest[BUFFER..], k + 1, mask, rands);
      FileIsOneMessage(rest[BUFFER..], k + 1, mask, rands);
      MessageOfMore(f, later);
      assert rest[..BUFFER] + rest[BUFFER..] == rest;
    }
  }

  lemma FragmentIsSound(rest: seq<Byte>, k: nat, mask: Byte, rands: nat -> nat)
    requires mask <= 1
    ensures var size := if |rest| < BUFFER then |rest| else BUFFER;
            var f := Fragment(rest[..size], k, mask, rands(k));
            && Sound(f) && f.header.mask == mask && f.payload == rest[..size] && |f.payload| == size
            && f.header.opcode == (if k == 0 then BIN else 0) && f.header.fin == (if |rest| < BUFFER then 1 else 0)
            && (|rest| < BUFFER ==> rest[..size] == rest)
  {
  }

  lemma MessageOfOne(f: Frame)
    ensures Payload([f]) == f.payload && (f.header.fin == 1 ==> IsMessage([f], f.header.opcode))
  {
    assert Payload([f]) == f.payload + Payload([]);
  }

  lemma MessageOfMore(f: Frame, later: seq<Frame>)
    requires IsMessage(later, 0) && f.header.fin == 0
    ensures Payload([f] + later) == f.payload + Payload(later) && IsMessage([f] + later, f.header.opcode)
  {
    var fs := [f] + later;
    assert fs[1..] == later;
    forall i | 0 <= i < |fs|
      ensures fs[i].header.opcode == (if i == 0 then f.header.opcode else 0)
      ensures fs[i].header.fin == (if i == |fs| - 1 then 1 else 0)
    {
      if i > 0 {
        assert fs[i] == later[i - 1];
      }
    }
  }

  lemma {:induction false} StreamOfMore(fs: seq<Frame>, f: Frame)
    ensures StreamBytes(fs + [f]) == StreamBytes(fs) + FrameBytes(f)
  {
    if fs != [] {
      StreamOfMore(fs[1..], f);
      assert (fs + [f])[1..] == fs[1..] + [f];
    }
  }

  lemma {:induction false} PayloadDelivered(fs: seq<Frame>, stale: Key)
    ensures Payload(AllDelivered(fs, stale)) == Payload(fs)
  {
    if fs != [] {
      PayloadDelivered(fs[1..], stale);
      assert AllDelivered(fs, stale)[1..] == AllDelivered(fs[1..], stale);
    }
  }

  /** The peer that parses what ws_send_file put on the wire gets one binary message, and it is the file. */
  lemma FileArrives(file: seq<Byte>, mask: Byte, rands: nat -> nat, stale: Key)
    requires mask <= 1
    ensures var got := ParseStream(StreamBytes(Fragments(file, 0, mask, rands)), stale);
            got.Some? && IsMessage(got.value, BIN) && Payload(got.value) == file
  {
    hide ParseStream, StreamBytes, Fragments, Payload, Sound;
    var fs := Fragments(file, 0, mask, rands);
    FileIsOneMessage(file, 0, mask, rands);
    StreamRoundTrip(fs, stale);
    PayloadDelivered(fs, stale);
  }

  /** What one read takes off what is left to send. */
  lemma NextFragment(rest: seq<Byte>, k: nat, mask: Byte, rands: nat -> nat, size: nat)
    requires size == if |rest| < BUFFER then |rest| else BUFFER
    ensures Fragments(rest, k, mask, rands)
         == [Fragment(rest[..size], k, mask, rands(k))]
            + if size < BUFFER then [] else Fragments(rest[size..], k + 1, mask, rands)
  {
    if |rest| < BUFFER {
      assert rest[..size] == rest;
    }
  }

  /** The state of the loop in ws_send_file: `out` was sent, and `sent` and what is left make up the whole. */
  ghost predicate Progress(out: seq<Byte>, was: seq<Byte>, sent: seq<Frame>, left: seq<Frame>, all: seq<Frame>) {
    out == was + StreamBytes(sent) && all == sent + left
  }

  lemma Started(was: seq<Byte>, all: seq<Frame>)
    ensures Progress(was, was, [], all, all)
  {
  }

  lemma Sending(out: seq<Byte>, was: seq<Byte>, sent: seq<Frame>, f: Frame, left: seq<Frame>, all: seq<Frame>)
    requires Progress(out, was, sent, [f] + left, all)
    ensures Progress(out + FrameBytes(f), was, sent + [f], left, all)
  {
    hide FrameBytes, StreamBytes;
    StreamOfMore(sent, f);
    assert sent + ([f] + left) == (sent + [f]) + left;
  }

  lemma Finished(out: seq<Byte>, was: seq<Byte>, sent: seq<Frame>, all: seq<Frame>)
    requires Progress(out, was, sent, [], all)
    ensures out == was + StreamBytes(all)
  {
    assert sent + [] == sent;
  }

  /** The body of the loop in ws_send_file: one read, one frame. */
  method SendPiece(client: Connection, ptr: File, buff: array<Byte>, mask: Byte, k: nat, rand: nat) returns (r: int)
    requires ptr.Valid() && !ptr.eof && buff.Length == BUFFER
    modifies client`outgoing, ptr, buff
    ensures ptr.Valid() && r == 0
    ensures var rest := old(ptr.bytes[ptr.at..]);
            && ptr.at == old(ptr.at) + (if |rest| < BUFFER then |rest| else BUFFER)
            && ptr.eof == (|rest| < BUFFER)
            && client.outgoing == old(client.outgoing) + FrameBytes(Fragment(rest[..ptr.at - old(ptr.at)], k, mask, rand))
  {
    hide FrameBytes;
    ghost var rest := ptr.bytes[ptr.at..];
    var header := Header(0, 0, 0, mask, [0, 0, 0, 0]);
    var size := ptr.Read(buff, BUFFER);
    assert buff[..size] == rest[..size];
    header := header.(fin := if ptr.eof then 1 else 0);
    header := header.(opcode := if k == 0 then BIN else 0);
    header := header.(plen := size);
    assert Frame(Keyed(header, rand), buff[..size]) == Fragment(rest[..size], k, mask, rand);
    r := SendFrame(client, buff, header, rand);
  }

  /** ws_send_file: a file that cannot be opened closes the connection instead. */
  method SendFile(client: Connection, file: Option<File>, mask: Byte, rands: nat -> nat) returns (r: int)
    requires file.Some? ==> file.value.at == 0 && !file.value.eof
    modifies client, if file.Some? then {file.value} else {}
    ensures r == 0
    ensures file.None? ==> client.outgoing == old(client.outgoing) + FrameBytes(CloseFrame(1011, mask, rands(0)))
    ensures file.Some? ==>
              client.outgoing == old(client.outgoing) + StreamBytes(Fragments(file.value.bytes, 0, mask, rands))
  {
    hide FrameBytes, StreamBytes, Fragments, Fragment, Progress, CloseFrame;
    if file == None {
      r := SendClose(client, 1011, mask, rands(0));
      return;
    }
    var ptr := file.value;
    var buff := new Byte[BUFFER];
    var k := 0;  // the frames sent so far
    ghost var was, all, sent := client.outgoing, Fragments(ptr.bytes, 0, mask, rands), [];
    ghost var left := all;
    Started(was, all);
    assert ptr.bytes[0..] == ptr.bytes;
    r := 0;
    while !ptr.eof
      invariant ptr.Valid() && r == 0
      invariant left == if ptr.eof then [] else Fragments(ptr.bytes[ptr.at..], k, mask, rands)
      invariant Progress(client.outgoing, was, sent, left, all)
      decreases !ptr.eof, |ptr.bytes| - ptr.at
    {
      ghost var rest, out := ptr.bytes[ptr.at..], client.outgoing;
      var n := SendPiece(client, ptr, buff, mask, k, rands(k));
      ghost var size := if |rest| < BUFFER then |rest| else BUFFER;
      ghost var f := Fragment(rest[..size], k, mask, rands(k));
      NextFragment(rest, k, mask, rands, size);
      left := if size < BUFFER then [] else Fragments(rest[size..], k + 1, mask, rands);
      assert !ptr.eof ==> ptr.bytes[ptr.at..] == rest[size..];
      Sending(out, was, sent, f, left, all);
      r := r + n;
      sent := sent + [f];
      k := k + 1;
    }
    Finished(client.outgoing, was, sent, all);
  }
}
