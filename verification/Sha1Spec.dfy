/** The Secure Hash Algorithm as FIPS PUB 180-1 states it: one 80-word schedule (section 7)
  * and five registers that shift by one place a round, over a padded message (section 4). */
module Sha1Spec {

  datatype State = State(a: bv32, b: bv32, c: bv32, d: bv32, e: bv32)

  const INITIAL: State := State(0x67452301, 0xEFCDAB89, 0x98BADCFE, 0x10325476, 0xC3D2E1F0)

  /** The circular left shift of section 3. */
  function Rol(x: bv32, n: bv32): bv32
    requires n <= 32
  {
    (x << n) | (x >> (32 - n))
  }

  /** Section 5: the logical functions. */
  function Ch(b: bv32, c: bv32, d: bv32): bv32 { (b & c) | (!b & d) }

  function Parity(b: bv32, c: bv32, d: bv32): bv32 { b ^ c ^ d }

  function Maj(b: bv32, c: bv32, d: bv32): bv32 { (b & c) | (b & d) | (c & d) }

  function F(t: nat, b: bv32, c: bv32, d: bv32): bv32 {
    if t < 20 then Ch(b, c, d) else if t < 40 then Parity(b, c, d) else if t < 60 then Maj(b, c, d) else Parity(b, c, d)
  }

  /** Section 6: the constants. */
  function K(t: nat): bv32 {
    if t < 20 then 0x5A827999 else if t < 40 then 0x6ED9EBA1 else if t < 60 then 0x8F1BBCDC else 0xCA62C1D6
  }

  function Sum(p: bv32, q: bv32, r: bv32, s: bv32, t: bv32): bv32 { p + q + r + s + t }

  /** Section 7, step d: what round t makes of the registers, given the schedule word w. */
  function Step(t: nat, w: bv32, s: State): State {
    State(Sum(Rol(s.a, 5), F(t, s.b, s.c, s.d), s.e, w, K(t)), s.a, Rol(s.b, 30), s.c, s.d)
  }

  /** Four bytes as a word, the first byte the most significant. */
  function BigEndian(m: seq<bv8>, k: nat): bv32
    requires k + 4 <= |m|
  {
    (m[k] as bv32 << 24) | (m[k + 1] as bv32 << 16) | (m[k + 2] as bv32 << 8) | m[k + 3] as bv32
  }

  /** Section 7, steps a and b: word t of the message schedule of a 64-byte block. */
  function W(m: seq<bv8>, t: nat): bv32
    requires |m| == 64
  {
    if t < 16 then BigEndian(m, 4 * t)
    else Rol(W(m, t - 3) ^ W(m, t - 8) ^ W(m, t - 14) ^ W(m, t - 16), 1)
  }

  function Schedule(m: seq<bv8>): seq<bv32>
    requires |m| == 64
  {
    seq(80, t requires 0 <= t => W(m, t))
  }

  /** The registers after one round per word of ws. */
  function Rounds(ws: seq<bv32>, s: State): State {
    if ws == [] then s else Step(|ws| - 1, ws[|ws| - 1], Rounds(ws[..|ws| - 1], s))
  }

  function Added(p: bv32, q: bv32): bv32 { p + q }

  function Plus(s: State, r: State): State {
    State(Added(s.a, r.a), Added(s.b, r.b), Added(s.c, r.c), Added(s.d, r.d), Added(s.e, r.e))
  }

  /** Section 7, steps a to e, for one block. */
  function Compress(s: State, m: seq<bv8>): State
    requires |m| == 64
  {
    Plus(s, Rounds(Schedule(m), s))
  }

  function Blocks(m: seq<bv8>): State
    requires |m| % 64 == 0
  {
    if m == [] then INITIAL else Compress(Blocks(m[..|m| - 64]), m[|m| - 64..])
  }

  /** Section 4: a one bit, then the fewest zeros that leave room for the length at the end of a block. */
  function Zeros(length: nat): (n: nat)
    ensures n < 64 && (length + 1 + n) % 64 == 56
  {
    (119 - length % 64) % 64
  }

  function Zeroed(n: nat): seq<bv8> { seq(n, _ => 0) }

  function Padding(length: nat): (p: seq<bv8>)
    ensures (length + |p|) % 64 == 56
  {
    [0x80] + Zeroed(Zeros(length))
  }

  const WORD: int := 0x1_0000_0000

  /** Byte k of a 32-bit number, the first the most significant. */
  function ByteOf(word: nat, k: nat): bv8
    requires k < 4
  {
    ((if k == 0 then word / 0x100_0000 else if k == 1 then word / 0x1_0000 else if k == 2 then word / 0x100 else word)
     % 0x100) as bv8
  }

  function Bytes(word: nat): (b: seq<bv8>)
    ensures |b| == 4
  {
    [ByteOf(word, 0), ByteOf(word, 1), ByteOf(word, 2), ByteOf(word, 3)]
  }

  /** A two-word number, the more significant word first. */
  function LengthField(high: nat, low: nat): (f: seq<bv8>)
    ensures |f| == 8
  {
    Bytes(high) + Bytes(low)
  }

  lemma EndOfBlock(n: nat)
    requires n % 64 == 56
    ensures (n + 8) % 64 == 0
  {
  }

  /** A message padded with a two-word count at the end. */
  function Ended(m: seq<bv8>, high: nat, low: nat): (p: seq<bv8>)
    ensures |p| % 64 == 0
  {
    EndOfBlock(|m| + |Padding(|m|)|);
    m + Padding(|m|) + LengthField(high, low)
  }

  /** The padded message of section 4: its last eight bytes are the length in bits. */
  function Padded(m: seq<bv8>): (p: seq<bv8>)
    ensures |p| % 64 == 0
  {
    Ended(m, 8 * |m| / WORD % WORD, 8 * |m| % WORD)
  }

  function Sha1(m: seq<bv8>): State { Blocks(Padded(m)) }

  /** The five words a 20-byte digest spells. */
  function Spelled(digest: seq<bv8>): State
    requires |digest| == 20
  {
    State(BigEndian(digest, 0), BigEndian(digest, 4), BigEndian(digest, 8), BigEndian(digest, 12), BigEndian(digest, 16))
  }

  lemma ZerosAreFewest(length: nat, n: nat)
    requires (length + 1 + n) % 64 == 56
    ensures Zeros(length) <= n
  {
  }

  /** One more block hashed. */
  lemma BlocksOfOneMore(m: seq<bv8>, block: seq<bv8>)
    requires |m| % 64 == 0 && |block| == 64
    ensures Blocks(m + block) == Compress(Blocks(m), block)
  {
    assert (m + block)[..|m|] == m;
    assert (m + block)[|m|..] == block;
  }
}
