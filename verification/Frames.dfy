/** The frame format of RFC 6455, section 5.2, as lib/ws.c writes and reads it. */
module Frames {
  import opened Tasks

  type Byte = x: int | 0 <= x < 0x100

  /** A masking key is four bytes. */
  type Key = k: seq<Byte> | |k| == 4 witness [0, 0, 0, 0]

  /** The fields of ws_msg_header_t; plen is a 32-bit unsigned number. */
  datatype Header = Header(fin: Byte, opcode: Byte, plen: nat, mask: Byte, key: Key)

  const U32: int := 0x1_0000_0000
  const INT_MAX: int := 0x7FFF_FFFF

  const BIN: Byte := 2
  const CLOSE: Byte := 8
  const PING: Byte := 9
  const PONG: Byte := 10

  function Two(n: nat): nat { if n == 0 then 1 else 2 * Two(n - 1) }

  /** The exclusive or of the low n bits of two numbers, bit by bit. */
  function XorLow(a: nat, b: nat, n: nat): (x: nat)
    ensures x < Two(n)
  {
    if n == 0 then 0 else (a % 2 + b % 2) % 2 + 2 * XorLow(a / 2, b / 2, n - 1)
  }

  /** The exclusive or of two bytes. */
  function Xor(a: Byte, b: Byte): Byte {
    ByteIsEightBits();
    XorLow(a, b, 8)
  }

  lemma ByteIsEightBits()
    ensures Two(8) == 0x100
  {
  }

  lemma LowBitFirst(bit: nat, rest: nat)
    requires bit < 2
    ensures (bit + 2 * rest) % 2 == bit && (bit + 2 * rest) / 2 == rest
  {
  }

  lemma BitTwice(a: nat, k: nat)
    ensures ((a % 2 + k % 2) % 2 + k % 2) % 2 == a % 2 && a == a % 2 + 2 * (a / 2)
  {
  }

  lemma {:induction false} XorLowTwice(a: nat, k: nat, n: nat)
    requires a < Two(n)
    ensures XorLow(XorLow(a, k, n), k, n) == a
  {
    if n > 0 {
      var bit, rest := (a % 2 + k % 2) % 2, XorLow(a / 2, k / 2, n - 1);
      LowBitFirst(bit, rest);
      XorLowTwice(a / 2, k / 2, n - 1);
      assert XorLow(bit + 2 * rest, k, n) == (bit + k % 2) % 2 + 2 * XorLow(rest, k / 2, n - 1);
      BitTwice(a, k);
    }
  }

  lemma BitTellsApart(a: nat, k: nat, l: nat)
    ensures (a % 2 + k % 2) % 2 == (a % 2 + l % 2) % 2 <==> k % 2 == l % 2
  {
  }

  lemma {:induction false} XorLowTellsApart(a: nat, k: nat, l: nat, n: nat)
    requires k < Two(n) && l < Two(n)
    ensures XorLow(a, k, n) == XorLow(a, l, n) <==> k == l
  {
    if n > 0 {
      var x, y := XorLow(a / 2, k / 2, n - 1), XorLow(a / 2, l / 2, n - 1);
      XorLowTellsApart(a / 2, k / 2, l / 2, n - 1);
      BitTellsApart(a, k, l);
      LowBitFirst((a % 2 + k % 2) % 2, x);
      LowBitFirst((a % 2 + l % 2) % 2, y);
      assert k == l <==> k % 2 == l % 2 && k / 2 == l / 2;
    }
  }

  lemma XorTwice(a: Byte, k: Byte)
    ensures Xor(Xor(a, k), k) == a
  {
    ByteIsEightBits();
    XorLowTwice(a, k, 8);
  }

  lemma XorTellsApart(a: Byte, k: Byte, l: Byte)
    ensures Xor(a, k) == Xor(a, l) <==> k == l
  {
    ByteIsEightBits();
    XorLowTellsApart(a, k, l, 8);
  }

  /** Section 5.3: byte i of the payload is combined with byte i modulo 4 of the key. */
  function Masked(s: seq<Byte>, key: Key): (m: seq<Byte>)
    ensures |m| == |s|
  {
    seq(|s|, i requires 0 <= i < |s| => Xor(s[i], key[i % 4]))
  }

  lemma MaskedTwice(s: seq<Byte>, key: Key)
    ensures Masked(Masked(s, key), key) == s
  {
    forall i: nat | i < |s| ensures Masked(Masked(s, key), key)[i] == s[i] {
      XorTwice(s[i], key[i % 4]);
    }
  }

  // ---- Headers ------------------------------------------------------------------------

  /** The length as _send_header writes it, in one of the three forms. */
  function LengthBytes(mask: Byte, plen: nat): (b: seq<Byte>) {
    if plen <= 125 then [(mask * 128 + plen) % 0x100]
    else if plen < 65536 then [(mask * 128 + 126) % 0x100, plen / 0x100, plen % 0x100]
    else [(mask * 128 + 127) % 0x100, 0, 0, 0, 0,
          plen / 0x100_0000 % 0x100, plen / 0x1_0000 % 0x100, plen / 0x100 % 0x100, plen % 0x100]
  }

  function HeaderBytes(h: Header): seq<Byte> {
    [(h.fin * 128 + h.opcode) % 0x100] + LengthBytes(h.mask, h.plen) + if h.mask != 0 then h.key else []
  }

  /** What a reader makes of the start of a byte stream: a header and the number of bytes it took.
    * A frame without a mask leaves the reader's key as it was. */
  function ParseHeader(s: seq<Byte>, stale: Key): Option<(Header, nat)> {
    if |s| < 2 || s[0] / 16 % 8 != 0 then None
    else
      var fin, opcode, mask, short := s[0] / 128, s[0] % 16, s[1] / 128, s[1] % 128;
      var at := if short <= 125 then 2 else if short == 126 then 4 else 10;
      if |s| < at + mask * 4 then None
      else
        var plen: nat := if short <= 125 then short
                    else if short == 126 then 0x100 * (s[2] as nat) + s[3]
                    else 0x100_0000 * (s[6] as nat) + 0x1_0000 * (s[7] as nat) + 0x100 * (s[8] as nat) + s[9];
        Some((Header(fin, opcode, plen, mask, if mask == 1 then s[at..at + 4] else stale), at + mask * 4))
  }

  /** How many bytes follow the second one to give the length. */
  function Extra(short: nat): nat { if short <= 125 then 0 else if short == 126 then 2 else 8 }

  /** A buffer after a read that may have filled only its start. */
  function Over(got: seq<Byte>, buf: seq<Byte>): (r: seq<Byte>)
    ensures |got| <= |buf| ==> |r| == |buf|
  {
    if |got| <= |buf| then got + buf[|got|..] else buf
  }

  /** The length, in the first or the last bytes of the eight that have room for it. */
  function HeardLength(short: nat, b: seq<Byte>): (n: nat)
    requires |b| == 8
    ensures short < 128 ==> n < U32
  {
    if short <= 125 then short
    else if short == 126 then 0x100 * (b[0] as nat) + b[1]
    else 0x100_0000 * (b[4] as nat) + 0x1_0000 * (b[5] as nat) + 0x100 * (b[6] as nat) + b[7]
  }

  /** What ws_read_header makes of a stream that ends: it takes any bytes at all for a whole field, and what is
    * missing reads as what the field's memory held before. A field of which nothing comes makes it fail. */
  function Heard(s: seq<Byte>, stale: Key, stack: seq<Byte>): Option<(Header, nat)>
    requires |stack| == 8
  {
    if |s| < 2 || s[0] / 16 % 8 != 0 then None
    else
      var mask, short := s[1] / 128, s[1] % 128;
      var got := s[2..Least(2 + Extra(short), |s|)];
      if Extra(short) > 0 && got == [] then None
      else
        var plen := HeardLength(short, Over(got, stack));
        var at := 2 + |got|;
        var key := s[at..Least(at + 4, |s|)];
        if mask == 0 then Some((Header(s[0] / 128, s[0] % 16, plen, mask, stale), at))
        else if key == [] then None
        else Some((Header(s[0] / 128, s[0] % 16, plen, mask, Over(key, stale)), at + |key|))
  }

  function Least(m: nat, n: nat): nat { if m < n then m else n }

  /** A stream that ends inside its last field, after at least one byte of it. */
  predicate CutInField(s: seq<Byte>) {
    && Begun(s)
    && var at := 2 + Extra(s[1] % 128);
    if s[1] / 128 == 0 then 2 < |s| < at else at < |s| < at + 4
  }

  /** A whole header is heard as it is. */
  lemma WholeIsHeard(s: seq<Byte>, stale: Key, stack: seq<Byte>)
    requires |stack| == 8 && ParseHeader(s, stale).Some?
    ensures Heard(s, stale, stack) == ParseHeader(s, stale)
  {
    var mask, short := s[1] / 128, s[1] % 128;
    var at := 2 + Extra(short);
    assert at + 4 * mask <= |s|;
    var got := s[2..Least(at, |s|)];
    assert |got| == at - 2 && 2 + |got| == at;
    assert forall i | 0 <= i < |got| :: Over(got, stack)[i] == s[2 + i];
    if mask != 0 {
      var key := s[at..Least(at + 4, |s|)];
      assert key == s[at..at + 4] && Over(key, stale) == key;
    }
  }

  /** What a header has to begin with: two bytes, and no reserved bit. */
  predicate Begun(s: seq<Byte>) { |s| >= 2 && s[0] / 16 % 8 == 0 }

  lemma ParsedIff(s: seq<Byte>, stale: Key)
    ensures ParseHeader(s, stale).Some? <==> Begun(s) && |s| >= 2 + Extra(s[1] % 128) + 4 * (s[1] / 128)
  {
  }

  /** The fields after the second byte that are there at all, each being heard if a byte of it is. */
  lemma HeardIff(s: seq<Byte>, stale: Key, stack: seq<Byte>)
    requires |stack| == 8
    ensures Heard(s, stale, stack).Some?
       <==> Begun(s) && var at := 2 + Extra(s[1] % 128);
                        if s[1] / 128 == 0 then at == 2 || |s| > 2 else |s| > at
  {
    hide HeardLength, Over;
    if Begun(s) {
      var at := 2 + Extra(s[1] % 128);
      var field := s[2..Least(at, |s|)];
      assert |field| == Least(at, |s|) - 2;
      assert |s[2 + |field|..Least(2 + |field| + 4, |s|)]| == Least(2 + |field| + 4, |s|) - (2 + |field|);
    }
  }

  /** A header that is not all there is taken for one if and only if the stream ends inside its last field. */
  lemma HeardThoughCutIff(s: seq<Byte>, stale: Key, stack: seq<Byte>)
    requires |stack| == 8
    ensures Heard(s, stale, stack).Some? && ParseHeader(s, stale).None? <==> CutInField(s)
  {
    hide Heard, ParseHeader;
    HeardIff(s, stale, stack);
    ParsedIff(s, stale);
    assert |s| >= 2 ==> s[1] / 128 == 0 || s[1] / 128 == 1;
  }

  /** A header whose fields fit the bits they are given. */
  predicate Fits(h: Header) { h.fin <= 1 && h.opcode < 16 && h.mask <= 1 }

  /** The key is part of a header only when there is a mask. */
  function Sent(h: Header, stale: Key): Header { if h.mask == 0 then h.(key := stale) else h }

  lemma FirstByte(fin: Byte, opcode: Byte)
    ensures var b := (fin * 128 + opcode) % 0x100;
            b / 16 % 8 == 0 && b / 128 == fin && b % 16 == opcode <==> fin <= 1 && opcode < 16
  {
  }

  lemma SecondByte(mask: Byte, short: nat)
    requires short < 128
    ensures var b := (mask * 128 + short) % 0x100; b / 128 == mask % 2 && b % 128 == short
  {
  }

  lemma FourBytes(n: nat)
    requires n < U32
    ensures 0x100_0000 * (n / 0x100_0000 % 0x100) + 0x1_0000 * (n / 0x1_0000 % 0x100) + 0x100 * (n / 0x100 % 0x100)
            + n % 0x100 == n
  {
  }

  /** What a reader makes of the bytes of a header, whether its fields fit or not. */
  lemma HeaderIsParsed(h: Header, stale: Key, rest: seq<Byte>)
    requires h.plen < U32 && h.mask <= 1
    ensures var s := HeaderBytes(h) + rest;
            ParseHeader(s, stale)
            == if s[0] / 16 % 8 != 0 then None
               else Some((Header(s[0] / 128, s[0] % 16, h.plen, h.mask, Sent(h, stale).key), |HeaderBytes(h)|))
  {
    SecondByte(h.mask, if h.plen <= 125 then h.plen else if h.plen < 65536 then 126 else 127);
    var length := LengthBytes(h.mask, h.plen);
    var s := HeaderBytes(h) + rest;
    var at := 1 + |length|;
    assert |s| >= at + h.mask * 4;
    assert forall i | 0 <= i < |length| :: s[1 + i] == length[i];
    assert h.mask != 0 ==> s[at..at + 4] == h.key;
    if 125 < h.plen < 65536 {
      assert s[2] == h.plen / 0x100 && s[3] == h.plen % 0x100;
    } else if h.plen >= 65536 {
      FourBytes(h.plen);
      assert s[6] == length[5] && s[7] == length[6] && s[8] == length[7] && s[9] == length[8];
    }
  }

  /** A header is read back as it was sent precisely when its fields fit. */
  lemma HeaderRoundTrip(h: Header, stale: Key, rest: seq<Byte>)
    requires h.plen < U32
    ensures ParseHeader(HeaderBytes(h) + rest, stale) == Some((Sent(h, stale), |HeaderBytes(h)|)) <==> Fits(h)
  {
    var s := HeaderBytes(h) + rest;
    assert s[0] == (h.fin * 128 + h.opcode) % 0x100;
    FirstByte(h.fin, h.opcode);
    if h.mask <= 1 {
      HeaderIsParsed(h, stale, rest);
      hide ParseHeader, HeaderBytes;
    } else {
      hide HeaderBytes, LengthBytes;
      assert ParseHeader(s, stale).Some? ==> ParseHeader(s, stale).value.0.mask <= 1;
    }
  }

  /** Every header occupies the fewest bytes its length allows (section 5.2). */
  lemma ShortestForm(h: Header, stale: Key, s: seq<Byte>)
    requires Fits(h) && ParseHeader(s, stale).Some?
    requires ParseHeader(s, stale).value.0.plen == h.plen && ParseHeader(s, stale).value.0.mask == h.mask
    ensures |HeaderBytes(h)| <= ParseHeader(s, stale).value.1
  {
  }

  // ---- Whole frames ---------------------------------------------------------------------

  datatype Frame = Frame(header: Header, payload: seq<Byte>)

  predicate Sound(f: Frame) { Fits(f.header) && f.header.plen == |f.payload| <= INT_MAX }

  /** The payload as it travels. Masking and unmasking are the same operation. */
  function Veiled(h: Header, s: seq<Byte>): (v: seq<Byte>)
    ensures |v| == |s|
  {
    if h.mask != 0 then Masked(s, h.key) else s
  }

  function FrameBytes(f: Frame): seq<Byte> { HeaderBytes(f.header) + Veiled(f.header, f.payload) }

  function Delivered(f: Frame, stale: Key): Frame { f.(header := Sent(f.header, stale)) }

  function ParseFrame(s: seq<Byte>, stale: Key): (p: Option<(Frame, nat)>)
    ensures p.Some? ==> 2 <= p.value.1 <= |s|
  {
    match ParseHeader(s, stale)
    case None => None
    case Some((h, n)) =>
      if |s| < n + h.plen then None else Some((Frame(h, Veiled(h, s[n..n + h.plen])), n + h.plen))
  }

  lemma FrameRoundTrip(f: Frame, stale: Key, rest: seq<Byte>)
    requires Sound(f)
    ensures ParseFrame(FrameBytes(f) + rest, stale) == Some((Delivered(f, stale), |FrameBytes(f)|))
  {
    hide ParseHeader, HeaderBytes;
    var body := Veiled(f.header, f.payload);
    HeaderRoundTrip(f.header, stale, body + rest);
    var s := FrameBytes(f) + rest;
    assert s == HeaderBytes(f.header) + (body + rest);
    var n := |HeaderBytes(f.header)|;
    assert s[n..n + |body|] == body;
    MaskedTwice(f.payload, f.header.key);
  }

  function StreamBytes(fs: seq<Frame>): seq<Byte> {
    if fs == [] then [] else FrameBytes(fs[0]) + StreamBytes(fs[1..])
  }

  function ParseStream(s: seq<Byte>, stale: Key): Option<seq<Frame>> {
    if s == [] then Some([])
    else
      match ParseFrame(s, stale)
      case None => None
      case Some((f, n)) =>
        match ParseStream(s[n..], stale)
        case None => None
        case Some(fs) => Some([f] + fs)
  }

  function AllDelivered(fs: seq<Frame>, stale: Key): (r: seq<Frame>)
    ensures |r| == |fs|
  {
    seq(|fs|, i requires 0 <= i < |fs| => Delivered(fs[i], stale))
  }

  lemma DeliveredInTurn(fs: seq<Frame>, stale: Key)
    requires fs != []
    ensures AllDelivered(fs, stale) == [Delivered(fs[0], stale)] + AllDelivered(fs[1..], stale)
  {
  }

  /** Frames need nothing between them: a stream splits in one way, whatever the payloads hold. */
  lemma {:induction false} StreamRoundTrip(fs: seq<Frame>, stale: Key)
    requires forall f | f in fs :: Sound(f)
    ensures ParseStream(StreamBytes(fs), stale) == Some(AllDelivered(fs, stale))
  {
    if fs != [] {
      hide ParseFrame, FrameBytes, Delivered;
      var rest := StreamBytes(fs[1..]);
      FrameRoundTrip(fs[0], stale, rest);
      StreamRoundTrip(fs[1..], stale);
      var s, n := StreamBytes(fs), |FrameBytes(fs[0])|;
      assert s[n..] == rest;
      DeliveredInTurn(fs, stale);
      assert Sound(fs[0]) && s != [];
      assert ParseFrame(s, stale) == Some((Delivered(fs[0], stale), n));
    }
  }

  // ---- Payloads read in pieces ------------------------------------------------------------

  /** The piece of d bytes at o, unmasked as ws_read_data does it, with the key from its start. */
  function Piece(wire: seq<Byte>, key: Key, o: nat, d: nat): seq<Byte>
    requires o + d <= |wire|
  {
    Masked(wire[o..o + d], key)
  }

  /** Whether the key looks the same from offset o as from its start. */
  predicate KeyInStep(key: Key, o: nat, d: nat) { forall i: nat | i < d :: SameKeyByte(key, o, i) }

  predicate SameKeyByte(key: Key, o: nat, i: nat) { key[(o + i) % 4] == key[i % 4] }

  lemma MultiplesOfFour(key: Key, o: nat, d: nat)
    requires o % 4 == 0
    ensures KeyInStep(key, o, d)
  {
    forall i: nat | i < d ensures SameKeyByte(key, o, i) {
      assert (o + i) % 4 == i % 4;
    }
  }

  /** A piece is unmasked correctly precisely when the key looks the same from there. */
  lemma PieceIsRight(payload: seq<Byte>, key: Key, o: nat, d: nat)
    requires o + d <= |payload|
    ensures Piece(Masked(payload, key), key, o, d) == payload[o..o + d] <==> KeyInStep(key, o, d)
  {
    var wire := Masked(payload, key);
    var piece, want := Piece(wire, key, o, d), payload[o..o + d];
    forall i: nat | i < d ensures piece[i] == want[i] <==> SameKeyByte(key, o, i) {
      var a, k, l := payload[o + i], key[(o + i) % 4], key[i % 4];
      assert piece[i] == Xor(Xor(a, k), l);
      XorTwice(a, k);
      XorTellsApart(Xor(a, k), k, l);
    }
    if KeyInStep(key, o, d) {
      assert piece == want;
    } else {
      var i: nat :| i < d && !SameKeyByte(key, o, i);
      assert piece[i] != want[i];
    }
  }

  /** A second piece that starts one byte in is garbled by almost every key. */
  lemma SecondPieceGarbled()
    ensures Piece(Masked([7, 7], [1, 2, 3, 4]), [1, 2, 3, 4], 1, 1) != [7, 7][1..2]
  {
    var key: Key := [1, 2, 3, 4];
    PieceIsRight([7, 7], key, 1, 1);
    assert !SameKeyByte(key, 1, 0);
  }

  function Total(lens: seq<nat>): nat { if lens == [] then 0 else lens[0] + Total(lens[1..]) }

  /** What successive reads of these lengths deliver, one after the other. */
  function InPieces(h: Header, wire: seq<Byte>, o: nat, lens: seq<nat>): seq<Byte>
    requires o + Total(lens) == |wire|
    decreases |lens|
  {
    if lens == [] then [] else Veiled(h, wire[o..o + lens[0]]) + InPieces(h, wire, o + lens[0], lens[1..])
  }

  /** Every piece starts where the key looks as from its start. */
  predicate PiecesInStep(key: Key, o: nat, lens: seq<nat>)
    decreases |lens|
  {
    lens == [] || (KeyInStep(key, o, lens[0]) && PiecesInStep(key, o + lens[0], lens[1..]))
  }

  predicate Fours(lens: seq<nat>) { forall i | 0 <= i < |lens| - 1 :: lens[i] % 4 == 0 }

  lemma PiecesJoin(payload: seq<Byte>, o: nat, d: nat, got: seq<Byte>, more: seq<Byte>)
    requires o + d <= |payload| && |got| == d
    ensures got + more == payload[o..] <==> got == payload[o..o + d] && more == payload[o + d..]
  {
    assert payload[o..] == payload[o..o + d] + payload[o + d..];
    assert got == (got + more)[..d] && more == (got + more)[d..];
  }

  lemma PieceIsRightOrPlain(h: Header, payload: seq<Byte>, o: nat, d: nat)
    requires o + d <= |payload|
    ensures Veiled(h, Veiled(h, payload)[o..o + d]) == payload[o..o + d] <==> h.mask == 0 || KeyInStep(h.key, o, d)
  {
    PieceIsRight(payload, h.key, o, d);
  }

  /** Read in pieces, a payload arrives whole if and only if there is no mask or all pieces are in step. */
  lemma {:induction false} WholeFromPieces(h: Header, payload: seq<Byte>, o: nat, lens: seq<nat>)
    requires o + Total(lens) == |payload|
    ensures InPieces(h, Veiled(h, payload), o, lens) == payload[o..] <==> h.mask == 0 || PiecesInStep(h.key, o, lens)
    decreases |lens|
  {
    if lens != [] {
      var wire, d, rest := Veiled(h, payload), lens[0], lens[1..];
      var got, more := Veiled(h, wire[o..o + d]), InPieces(h, wire, o + d, rest);
      PieceIsRightOrPlain(h, payload, o, d);
      WholeFromPieces(h, payload, o + d, rest);
      PiecesJoin(payload, o, d, got, more);
      assert InPieces(h, wire, o, lens) == got + more;
      assert PiecesInStep(h.key, o, lens) == (KeyInStep(h.key, o, d) && PiecesInStep(h.key, o + d, rest));
      hide *;
    }
  }

  lemma FoursAddUp(o: nat, d: nat)
    requires o % 4 == 0
    ensures (o + d) % 4 == 0 <==> d % 4 == 0
  {
  }

  lemma LaterFours(lens: seq<nat>)
    requires lens != []
    ensures Fours(lens) <==> Fours(lens[1..]) && (|lens| > 1 ==> lens[0] % 4 == 0)
  {
    var rest := lens[1..];
    assert forall i | 0 <= i < |rest| :: rest[i] == lens[i + 1];
    if Fours(rest) && (|lens| > 1 ==> lens[0] % 4 == 0) {
      forall i | 0 <= i < |lens| - 1 ensures lens[i] % 4 == 0 {
        if i > 0 {
          assert rest[i - 1] % 4 == 0;
        }
      }
    }
  }

  /** Pieces of which all but the last are multiples of four are in step with every key. */
  lemma {:induction false} FoursAreInStep(key: Key, o: nat, lens: seq<nat>)
    requires o % 4 == 0 && Fours(lens)
    ensures PiecesInStep(key, o, lens)
    decreases |lens|
  {
    if lens != [] {
      MultiplesOfFour(key, o, lens[0]);
      LaterFours(lens);
      if |lens| > 1 {
        FoursAddUp(o, lens[0]);
        FoursAreInStep(key, o + lens[0], lens[1..]);
      }
    }
  }

  /** With a key of four different bytes no others are. */
  lemma {:induction false} InStepNeedsFours(key: Key, o: nat, lens: seq<nat>)
    requires forall i, j | 0 <= i < j < 4 :: key[i] != key[j]
    requires o % 4 == 0 && forall i | 0 <= i < |lens| :: lens[i] > 0
    ensures PiecesInStep(key, o, lens) <==> Fours(lens)
    decreases |lens|
  {
    if |lens| > 1 {
      hide Fours, KeyInStep;
      var d, rest := lens[0], lens[1..];
      LaterFours(lens);
      MultiplesOfFour(key, o, d);
      FoursAddUp(o, d);
      if d % 4 == 0 {
        InStepNeedsFours(key, o + d, rest);
      } else {
        OutOfStep(key, o + d, rest[0]);
      }
    } else if |lens| == 1 {
      MultiplesOfFour(key, o, lens[0]);
    }
  }

  lemma OutOfStep(key: Key, o: nat, d: nat)
    requires forall i, j | 0 <= i < j < 4 :: key[i] != key[j]
    requires o % 4 != 0 && d > 0
    ensures !KeyInStep(key, o, d)
  {
    assert !SameKeyByte(key, o, 0);
  }
}
