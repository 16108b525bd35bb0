/** The examples of RFC 6455, section 5.7, byte for byte, and the other frames lib/ws.c makes by itself. */
module FrameExamples {
  import opened Tasks
  import opened Frames
  import opened WebSocket
  import opened FileTransfer

  // ---- Exclusive or, bit by bit -------------------------------------------------------------

  lemma HalfThenDivide(x: nat, i: nat)
    requires i < 7
    ensures Two(i) > 0 && Two(i + 1) > 0 && x / Two(i + 1) == x / 2 / Two(i)
  {
    PowersOfTwo();
    if i < 4 {
      assert i == 0 || i == 1 || i == 2 || i == 3;
    } else {
      assert i == 4 || i == 5 || i == 6;
    }
    hide Two;
  }

  lemma PowersOfTwo()
    ensures Two(0) == 1 && Two(1) == 2 && Two(2) == 4 && Two(3) == 8
    ensures Two(4) == 16 && Two(5) == 32 && Two(6) == 64 && Two(7) == 128
  {
  }

  lemma LowestBit(a: nat, k: nat, n: nat)
    requires n > 0
    ensures XorLow(a, k, n) % 2 == (a + k) % 2 && XorLow(a, k, n) / 2 == XorLow(a / 2, k / 2, n - 1)
  {
    LowBitFirst((a % 2 + k % 2) % 2, XorLow(a / 2, k / 2, n - 1));
  }

  lemma {:induction false} XorLowBits(a: nat, k: nat, n: nat, i: nat)
    requires i < n <= 8
    ensures Two(i) > 0 && XorLow(a, k, n) / Two(i) % 2 == (a / Two(i) + k / Two(i)) % 2
  {
    hide Two, XorLow;
    LowestBit(a, k, n);
    if i == 0 {
      PowersOfTwo();
    } else {
      XorLowBits(a / 2, k / 2, n - 1, i - 1);
      HalfThenDivide(a, i - 1);
      HalfThenDivide(k, i - 1);
      HalfThenDivide(XorLow(a, k, n), i - 1);
    }
  }

  /** Bit i of an exclusive or is the sum of the two bits i, modulo two. */
  lemma XorBits(a: Byte, k: Byte, i: nat)
    requires i < 8
    ensures Two(i) > 0 && Xor(a, k) / Two(i) % 2 == (a / Two(i) + k / Two(i)) % 2
  {
    XorLowBits(a, k, 8, i);
  }

  // ---- Section 5.7 --------------------------------------------------------------------------

  const HELLO: seq<Byte> := [0x48, 0x65, 0x6C, 0x6C, 0x6F]
  const KEY: Key := [0x37, 0xFA, 0x21, 0x3D]
  const VEILED: seq<Byte> := [0x7F, 0x9F, 0x4D, 0x51, 0x58]


  lemma FirstVeiled()
    ensures Xor(0x48, 0x37) == 0x7F
  {
    hide Two;
    assert XorLow(1, 0, 2) == 1;
    assert XorLow(4, 3, 4) == 7;
    assert XorLow(18, 13, 6) == 31;
  }

  lemma SecondVeiled()
    ensures Xor(0x65, 0xFA) == 0x9F
  {
    hide Two;
    assert XorLow(1, 3, 2) == 2;
    assert XorLow(6, 15, 4) == 9;
    assert XorLow(25, 62, 6) == 39;
  }

  lemma ThirdVeiled()
    ensures Xor(0x6C, 0x21) == 0x4D
  {
    hide Two;
    assert XorLow(1, 0, 2) == 1;
    assert XorLow(6, 2, 4) == 4;
    assert XorLow(27, 8, 6) == 19;
  }

  lemma FourthVeiled()
    ensures Xor(0x6C, 0x3D) == 0x51
  {
    hide Two;
    assert XorLow(1, 0, 2) == 1;
    assert XorLow(6, 3, 4) == 5;
    assert XorLow(27, 15, 6) == 20;
  }

  lemma FifthVeiled()
    ensures Xor(0x6F, 0x37) == 0x58
  {
    hide Two;
    assert XorLow(1, 0, 2) == 1;
    assert XorLow(6, 3, 4) == 5;
    assert XorLow(27, 13, 6) == 22;
  }

  lemma HelloVeiled()
    ensures Masked(HELLO, KEY) == VEILED
  {
    hide Xor;
    FirstVeiled();
    SecondVeiled();
    ThirdVeiled();
    FourthVeiled();
    FifthVeiled();
  }

  /** "Hello" as unmasked text, as masked text, in two fragments, and in a ping and its masked pong. */
  function Unmasked(opcode: Byte): Frame { Frame(Header(1, opcode, 5, 0, [0, 0, 0, 0]), HELLO) }

  function WithMask(opcode: Byte): Frame { Frame(Header(1, opcode, 5, 1, KEY), HELLO) }

  const TEXT: seq<Byte> := [0x81, 0x05, 0x48, 0x65, 0x6C, 0x6C, 0x6F]
  const MASKED_TEXT: seq<Byte> := [0x81, 0x85, 0x37, 0xFA, 0x21, 0x3D, 0x7F, 0x9F, 0x4D, 0x51, 0x58]

  lemma HelloUnmasked(stale: Key)
    ensures FrameBytes(Unmasked(1)) == TEXT && ParseFrame(TEXT, stale) == Some((Delivered(Unmasked(1), stale), 7))
    ensures FrameBytes(Unmasked(PING)) == [0x89, 0x05, 0x48, 0x65, 0x6C, 0x6C, 0x6F]
  {
    var f := Unmasked(1);
    assert HeaderBytes(f.header) == [0x81, 0x05] && HeaderBytes(Unmasked(PING).header) == [0x89, 0x05];
    FrameRoundTrip(f, stale, []);
    hide ParseFrame, HeaderBytes;
    assert FrameBytes(f) + [] == TEXT;
  }

  lemma HelloMasked(stale: Key)
    ensures FrameBytes(WithMask(1)) == MASKED_TEXT && ParseFrame(MASKED_TEXT, stale) == Some((WithMask(1), 11))
    ensures FrameBytes(WithMask(PONG)) == [0x8A, 0x85, 0x37, 0xFA, 0x21, 0x3D, 0x7F, 0x9F, 0x4D, 0x51, 0x58]
  {
    hide Masked, ParseFrame;
    HelloVeiled();
    var f := WithMask(1);
    assert HeaderBytes(f.header) == [0x81, 0x85, 0x37, 0xFA, 0x21, 0x3D];
    assert HeaderBytes(WithMask(PONG).header) == [0x8A, 0x85, 0x37, 0xFA, 0x21, 0x3D];
    FrameRoundTrip(f, stale, []);
    assert FrameBytes(f) + [] == MASKED_TEXT;
  }

  /** The answer to that ping with that key is that pong. */
  lemma HelloAnswered()
    ensures PongFrame(Unmasked(PING), 1, 0x37FA213D) == WithMask(PONG)
  {
    hide MaskKey;
    KeyOfNumber();
  }

  lemma KeyOfNumber()
    ensures MaskKey(0x37FA213D) == KEY
  {
  }

  lemma HelloInFragments()
    ensures FrameBytes(Frame(Header(0, 1, 3, 0, [0, 0, 0, 0]), [0x48, 0x65, 0x6C])) == [0x01, 0x03, 0x48, 0x65, 0x6C]
    ensures FrameBytes(Frame(Header(1, 0, 2, 0, [0, 0, 0, 0]), [0x6C, 0x6F])) == [0x80, 0x02, 0x6C, 0x6F]
  {
  }

  /** 256 bytes and 64 KiB of binary data in one unmasked frame: the two longer forms of the length. */
  lemma LongHeaders(key: Key)
    ensures HeaderBytes(Header(1, BIN, 256, 0, key)) == [0x82, 0x7E, 0x01, 0x00]
    ensures HeaderBytes(Header(1, BIN, 65536, 0, key)) == [0x82, 0x7F, 0x00, 0x00, 0x00, 0x00, 0x00, 0x01, 0x00, 0x00]
  {
  }

  /** A length of which one byte is missing takes that byte from the stack. */
  lemma CutLength(key: Key)
    ensures Heard([0x82, 0x7E, 0x01], key, [9, 7, 0, 0, 0, 0, 0, 0]) == Some((Header(1, BIN, 0x107, 0, key), 3))
    ensures ParseHeader([0x82, 0x7E, 0x01], key) == None
  {
  }

  // ---- Frames the server sends by itself ----------------------------------------------------

  /** Closing in kind, and closing because a file cannot be opened (section 7.4.1). */
  lemma CloseFrames(rand: nat)
    ensures FrameBytes(CloseFrame(1000, 0, rand)) == [0x88, 0x02, 0x03, 0xE8]
    ensures FrameBytes(CloseFrame(1011, 0, rand)) == [0x88, 0x02, 0x03, 0xF3]
  {
  }

  /** What reading a header sends back: to a close the same status, masked if the frame was not; to that ping of
    * "Hello" that pong; to text nothing. */
  lemma Replies()
    ensures Reply(Frame(Header(1, CLOSE, 0, 1, KEY), []), 0x37FA213D) == [0x88, 0x02, 0x03, 0xE8]
    ensures Reply(Unmasked(PING), 0x37FA213D) == [0x8A, 0x85, 0x37, 0xFA, 0x21, 0x3D, 0x7F, 0x9F, 0x4D, 0x51, 0x58]
    ensures Reply(WithMask(1), 0x37FA213D) == []
  {
    CloseFrames(0x37FA213D);
    HelloAnswered();
    HelloMasked(KEY);
    hide FrameBytes;
  }

  /** The frames of a file hold 1024 bytes each but the last, and say so. */
  lemma FileHeaders(file: seq<Byte>, rands: nat -> nat, i: nat)
    requires i < |file| / 1024
    ensures var fs := Fragments(file, 0, 0, rands);
            && |fs| == |file| / 1024 + 1
            && HeaderBytes(fs[i].header) == [if i == 0 then 0x02 else 0x00, 0x7E, 0x04, 0x00]
  {
    hide Fragments, Payload, Fits;
    FileIsOneMessage(file, 0, 0, rands);
    var f := Fragments(file, 0, 0, rands)[i];
    assert f.header.plen == 1024;
  }
}
