/** One block hashed in place, as lib/sha1.c does it on a little-endian machine: the block's own bytes become a
  * circular 16-word schedule, and the five working variables change roles instead of shifting. */
module Sha1Block {
  import opened Sha1Spec

  /** Four bytes read as a word by a little-endian machine. */
  function Little(m: seq<bv8>, k: nat): bv32
    requires k + 4 <= |m|
  {
    m[k] as bv32 | (m[k + 1] as bv32 << 8) | (m[k + 2] as bv32 << 16) | (m[k + 3] as bv32 << 24)
  }

  function LowByte(w: bv32): bv8 { (w & 0xFF) as bv8 }

  /** The word view of a block: what block->l holds when block->c holds these bytes. */
  function Words(m: seq<bv8>): (l: seq<bv32>)
    requires |m| == 64
    ensures |l| == 16
  {
    seq(16, i requires 0 <= i < 16 => Little(m, 4 * i))
  }

  lemma SplitWord(w: bv32)
    ensures LowByte(w) as bv32 | (LowByte(w >> 8) as bv32 << 8)
            | (LowByte(w >> 16) as bv32 << 16) | (LowByte(w >> 24) as bv32 << 24) == w
  {
  }

  function Swapped(w: bv32): bv32 { (Rol(w, 24) & 0xFF00FF00) | (Rol(w, 8) & 0x00FF00FF) }

  /** The byte swap of blk0 turns the machine's reading of four bytes into the standard's. */
  lemma SwapReadsBigEndian(m: seq<bv8>, k: nat)
    requires k + 4 <= |m|
    ensures Swapped(Little(m, k)) == BigEndian(m, k)
  {
  }

  lemma ChRewritten(w: bv32, x: bv32, y: bv32)
    ensures ((w & (x ^ y)) ^ y) == Ch(w, x, y)
  {
  }

  lemma MajRewritten(w: bv32, x: bv32, y: bv32)
    ensures (((w | x) & y) | (w & x)) == Maj(w, x, y)
  {
  }

  /** Nothing but the 64 bytes at off has changed since `before`. */
  predicate OnlyBlock(now: seq<bv8>, before: seq<bv8>, off: nat) {
    |now| == |before| && off + 64 <= |now| && now[..off] == before[..off] && now[off + 64..] == before[off + 64..]
  }

  /** Before round t the 16 words hold the last 16 words of the schedule of m, each at its number modulo 16;
    * early on, the words not yet reached still hold the message. */
  predicate Circular(l: seq<bv32>, m: seq<bv8>, t: nat)
    requires |m| == 64
  {
    && |l| == 16
    && (forall j | 0 <= j < t <= j + 16 :: l[j % 16] == W(m, j))
    && (forall j | t <= j < 16 :: l[j] == Little(m, 4 * j))
  }

  /** Before round t the block at off, in memory that was `before` at the start, holds the circular schedule. */
  ghost predicate Expanded(block: array<bv8>, off: nat, before: seq<bv8>, t: nat)
    reads block
  {
    OnlyBlock(block[..], before, off) && Circular(Words(block[off..off + 64]), before[off..off + 64], t)
  }

  /** The whole state before round t, the registers in the standard's order. */
  ghost predicate Running(block: array<bv8>, off: nat, before: seq<bv8>, s: State, t: nat, r: State)
    reads block
  {
    t <= 80 && Expanded(block, off, before, t) && r == Rounds(Schedule(before[off..off + 64])[..t], s)
  }

  /** Storing a word changes that word of the view and no other. */
  lemma StoredWord(m: seq<bv8>, n: seq<bv8>, i: nat, w: bv32)
    requires |m| == |n| == 64 && i < 16
    requires n[4 * i] == LowByte(w) && n[4 * i + 1] == LowByte(w >> 8)
    requires n[4 * i + 2] == LowByte(w >> 16) && n[4 * i + 3] == LowByte(w >> 24)
    requires forall k | 0 <= k < 64 && !(4 * i <= k < 4 * i + 4) :: n[k] == m[k]
    ensures Words(n) == Words(m)[i := w]
  {
    forall j: nat | j < 16 ensures Little(n, 4 * j) == if j == i then w else Little(m, 4 * j) {
      if j == i {
        SplitWord(w);
      } else {
        assert n[4 * j] == m[4 * j] && n[4 * j + 1] == m[4 * j + 1];
        assert n[4 * j + 2] == m[4 * j + 2] && n[4 * j + 3] == m[4 * j + 3];
      }
    }
  }

  method StoreWord(block: array<bv8>, off: nat, i: nat, w: bv32)
    requires i < 16 && off + 64 <= block.Length
    modifies block
    ensures OnlyBlock(block[..], old(block[..]), off)
    ensures Words(block[off..off + 64]) == old(Words(block[off..off + 64]))[i := w]
  {
    var k := off + 4 * i;
    var b0, b1, b2, b3 := LowByte(w), LowByte(w >> 8), LowByte(w >> 16), LowByte(w >> 24);
    block[k], block[k + 1], block[k + 2], block[k + 3] := b0, b1, b2, b3;
    StoredWord(old(block[off..off + 64]), block[off..off + 64], i, w);
  }

  /** The slots the code reads at round t hold the words three, eight, fourteen and sixteen rounds back. */
  lemma RecentWords(l: seq<bv32>, m: seq<bv8>, t: nat)
    requires |m| == 64 && 16 <= t && Circular(l, m, t)
    ensures l[(t + 13) % 16] == W(m, t - 3) && l[(t + 8) % 16] == W(m, t - 8)
    ensures l[(t + 2) % 16] == W(m, t - 14) && l[t % 16] == W(m, t - 16)
  {
    hide W, Little;
    assert l[(t - 3) % 16] == W(m, t - 3) && l[(t - 8) % 16] == W(m, t - 8);
    assert l[(t - 14) % 16] == W(m, t - 14) && l[(t - 16) % 16] == W(m, t - 16);
    assert (t - 3) % 16 == (t + 13) % 16 && (t - 8) % 16 == (t + 8) % 16;
    assert (t - 14) % 16 == (t + 2) % 16 && (t - 16) % 16 == t % 16;
  }

  lemma NextWord(l: seq<bv32>, m: seq<bv8>, t: nat, w: bv32)
    requires |m| == 64 && Circular(l, m, t) && w == W(m, t)
    ensures Circular(l[t % 16 := w], m, t + 1)
  {
    hide W, Little;
    var n := l[t % 16 := w];
    forall j: nat | j < t + 1 <= j + 16 ensures n[j % 16] == W(m, j) {
      if j < t {
        assert j % 16 != t % 16;
      }
    }
  }

  lemma NextRound(m: seq<bv8>, s: State, t: nat, r: State)
    requires |m| == 64 && t < 80 && r == Rounds(Schedule(m)[..t], s)
    ensures Step(t, W(m, t), r) == Rounds(Schedule(m)[..t + 1], s)
  {
    var ws := Schedule(m)[..t + 1];
    assert ws[..|ws| - 1] == Schedule(m)[..t];
  }

  /** blk0: swap the word in place. */
  method Blk0(block: array<bv8>, off: nat, i: nat, ghost before: seq<bv8>) returns (w: bv32)
    requires i < 16 && Expanded(block, off, before, i)
    modifies block
    ensures Expanded(block, off, before, i + 1)
    ensures w == W(before[off..off + 64], i)
  {
    ghost var m, l := before[off..off + 64], Words(block[off..off + 64]);
    w := Swapped(Little(block[off..off + 64], 4 * i));
    assert l[i] == Little(m, 4 * i);
    SwapReadsBigEndian(m, 4 * i);
    NextWord(l, m, i, w);
    StoreWord(block, off, i, w);
  }

  /** blk: replace the word sixteen rounds back by this round's. */
  method Blk(block: array<bv8>, off: nat, i: nat, ghost before: seq<bv8>) returns (w: bv32)
    requires 16 <= i < 80 && Expanded(block, off, before, i)
    modifies block
    ensures Expanded(block, off, before, i + 1)
    ensures w == W(before[off..off + 64], i)
  {
    ghost var m, l := before[off..off + 64], Words(block[off..off + 64]);
    RecentWords(l, m, i);
    var now := Words(block[off..off + 64]);
    w := Rol(now[(i + 13) % 16] ^ now[(i + 8) % 16] ^ now[(i + 2) % 16] ^ now[i % 16], 1);
    NextWord(l, m, i, w);
    StoreWord(block, off, i % 16, w);
  }

  /** The sum every macro adds to its last register. */
  method Add(z: bv32, f: bv32, word: bv32, k: bv32, rol: bv32) returns (z': bv32)
    ensures z' == Sum(rol, f, z, word, k)
  {
    z' := z + (f + word + k + rol);
  }

  /** The macros R0 to R4: one round each. The register updated in place is the new first register, the others change name. */
  method R0(block: array<bv8>, off: nat, v: bv32, w: bv32, x: bv32, y: bv32, z: bv32, i: nat,
            ghost before: seq<bv8>, ghost s: State) returns (z': bv32, w': bv32)
    requires i < 16 && Running(block, off, before, s, i, State(v, w, x, y, z))
    modifies block
    ensures Running(block, off, before, s, i + 1, State(z', v, w', x, y))
  {
    var word := Blk0(block, off, i, before);
    z' := Add(z, (w & (x ^ y)) ^ y, word, 0x5A827999, Rol(v, 5));
    w' := Rol(w, 30);
    ChRewritten(w, x, y);
    NextRound(before[off..off + 64], s, i, State(v, w, x, y, z));
  }

  /** Rounds 16 to 19. */
  method R1(block: array<bv8>, off: nat, v: bv32, w: bv32, x: bv32, y: bv32, z: bv32, i: nat,
            ghost before: seq<bv8>, ghost s: State) returns (z': bv32, w': bv32)
    requires 16 <= i < 20 && Running(block, off, before, s, i, State(v, w, x, y, z))
    modifies block
    ensures Running(block, off, before, s, i + 1, State(z', v, w', x, y))
  {
    var word := Blk(block, off, i, before);
    z' := Add(z, (w & (x ^ y)) ^ y, word, 0x5A827999, Rol(v, 5));
    w' := Rol(w, 30);
    ChRewritten(w, x, y);
    NextRound(before[off..off + 64], s, i, State(v, w, x, y, z));
  }

  /** Rounds 20 to 39. */
  method R2(block: array<bv8>, off: nat, v: bv32, w: bv32, x: bv32, y: bv32, z: bv32, i: nat,
            ghost before: seq<bv8>, ghost s: State) returns (z': bv32, w': bv32)
    requires 20 <= i < 40 && Running(block, off, before, s, i, State(v, w, x, y, z))
    modifies block
    ensures Running(block, off, before, s, i + 1, State(z', v, w', x, y))
  {
    var word := Blk(block, off, i, before);
    z' := Add(z, w ^ x ^ y, word, 0x6ED9EBA1, Rol(v, 5));
    w' := Rol(w, 30);
    NextRound(before[off..off + 64], s, i, State(v, w, x, y, z));
  }

  /** Rounds 40 to 59. */
  method R3(block: array<bv8>, off: nat, v: bv32, w: bv32, x: bv32, y: bv32, z: bv32, i: nat,
            ghost before: seq<bv8>, ghost s: State) returns (z': bv32, w': bv32)
    requires 40 <= i < 60 && Running(block, off, before, s, i, State(v, w, x, y, z))
    modifies block
    ensures Running(block, off, before, s, i + 1, State(z', v, w', x, y))
  {
    var word := Blk(block, off, i, before);
    z' := Add(z, ((w | x) & y) | (w & x), word, 0x8F1BBCDC, Rol(v, 5));
    w' := Rol(w, 30);
    MajRewritten(w, x, y);
    NextRound(before[off..off + 64], s, i, State(v, w, x, y, z));
  }

  /** Rounds 60 to 79. */
  method R4(block: array<bv8>, off: nat, v: bv32, w: bv32, x: bv32, y: bv32, z: bv32, i: nat,
            ghost before: seq<bv8>, ghost s: State) returns (z': bv32, w': bv32)
    requires 60 <= i < 80 && Running(block, off, before, s, i, State(v, w, x, y, z))
    modifies block
    ensures Running(block, off, before, s, i + 1, State(z', v, w', x, y))
  {
    var word := Blk(block, off, i, before);
    z' := Add(z, w ^ x ^ y, word, 0xCA62C1D6, Rol(v, 5));
    w' := Rol(w, 30);
    NextRound(before[off..off + 64], s, i, State(v, w, x, y, z));
  }

  function Registers(state: array<bv32>): State
    requires state.Length == 5
    reads state
  {
    State(state[0], state[1], state[2], state[3], state[4])
  }

  method Rounds0To20(buffer: array<bv8>, off: nat, a0: bv32, b0: bv32, c0: bv32, d0: bv32, e0: bv32,
                        ghost before: seq<bv8>, ghost s: State)
    returns (a: bv32, b: bv32, c: bv32, d: bv32, e: bv32)
    requires Running(buffer, off, before, s, 0, State(a0, b0, c0, d0, e0))
    modifies buffer
    ensures Running(buffer, off, before, s, 20, State(a, b, c, d, e))
  {
    hide *;
    a, b, c, d, e := a0, b0, c0, d0, e0;
    e, b := R0(buffer, off, a, b, c, d, e, 0, before, s);
    d, a := R0(buffer, off, e, a, b, c, d, 1, before, s);
    c, e := R0(buffer, off, d, e, a, b, c, 2, before, s);
    b, d := R0(buffer, off, c, d, e, a, b, 3, before, s);
    a, c := R0(buffer, off, b, c, d, e, a, 4, before, s);
    e, b := R0(buffer, off, a, b, c, d, e, 5, before, s);
    d, a := R0(buffer, off, e, a, b, c, d, 6, before, s);
    c, e := R0(buffer, off, d, e, a, b, c, 7, before, s);
    b, d := R0(buffer, off, c, d, e, a, b, 8, before, s);
    a, c := R0(buffer, off, b, c, d, e, a, 9, before, s);
    e, b := R0(buffer, off, a, b, c, d, e, 10, before, s);
    d, a := R0(buffer, off, e, a, b, c, d, 11, before, s);
    c, e := R0(buffer, off, d, e, a, b, c, 12, before, s);
    b, d := R0(buffer, off, c, d, e, a, b, 13, before, s);
    a, c := R0(buffer, off, b, c, d, e, a, 14, before, s);
    e, b := R0(buffer, off, a, b, c, d, e, 15, before, s);
    d, a := R1(buffer, off, e, a, b, c, d, 16, before, s);
    c, e := R1(buffer, off, d, e, a, b, c, 17, before, s);
    b, d := R1(buffer, off, c, d, e, a, b, 18, before, s);
    a, c := R1(buffer, off, b, c, d, e, a, 19, before, s);
  }

  method Rounds20To40(buffer: array<bv8>, off: nat, a0: bv32, b0: bv32, c0: bv32, d0: bv32, e0: bv32,
                        ghost before: seq<bv8>, ghost s: State)
    returns (a: bv32, b: bv32, c: bv32, d: bv32, e: bv32)
    requires Running(buffer, off, before, s, 20, State(a0, b0, c0, d0, e0))
    modifies buffer
    ensures Running(buffer, off, before, s, 40, State(a, b, c, d, e))
  {
    hide *;
    a, b, c, d, e := a0, b0, c0, d0, e0;
    e, b := R2(buffer, off, a, b, c, d, e, 20, before, s);
    d, a := R2(buffer, off, e, a, b, c, d, 21, before, s);
    c, e := R2(buffer, off, d, e, a, b, c, 22, before, s);
    b, d := R2(buffer, off, c, d, e, a, b, 23, before, s);
    a, c := R2(buffer, off, b, c, d, e, a, 24, before, s);
    e, b := R2(buffer, off, a, b, c, d, e, 25, before, s);
    d, a := R2(buffer, off, e, a, b, c, d, 26, before, s);
    c, e := R2(buffer, off, d, e, a, b, c, 27, before, s);
    b, d := R2(buffer, off, c, d, e, a, b, 28, before, s);
    a, c := R2(buffer, off, b, c, d, e, a, 29, before, s);
    e, b := R2(buffer, off, a, b, c, d, e, 30, before, s);
    d, a := R2(buffer, off, e, a, b, c, d, 31, before, s);
    c, e := R2(buffer, off, d, e, a, b, c, 32, before, s);
    b, d := R2(buffer, off, c, d, e, a, b, 33, before, s);
    a, c := R2(buffer, off, b, c, d, e, a, 34, before, s);
    e, b := R2(buffer, off, a, b, c, d, e, 35, before, s);
    d, a := R2(buffer, off, e, a, b, c, d, 36, before, s);
    c, e := R2(buffer, off, d, e, a, b, c, 37, before, s);
    b, d := R2(buffer, off, c, d, e, a, b, 38, before, s);
    a, c := R2(buffer, off, b, c, d, e, a, 39, before, s);
  }

  method Rounds40To60(buffer: array<bv8>, off: nat, a0: bv32, b0: bv32, c0: bv32, d0: bv32, e0: bv32,
                        ghost before: seq<bv8>, ghost s: State)
    returns (a: bv32, b: bv32, c: bv32, d: bv32, e: bv32)
    requires Running(buffer, off, before, s, 40, State(a0, b0, c0, d0, e0))
    modifies buffer
    ensures Running(buffer, off, before, s, 60, State(a, b, c, d, e))
  {
    hide *;
    a, b, c, d, e := a0, b0, c0, d0, e0;
    e, b := R3(buffer, off, a, b, c, d, e, 40, before, s);
    d, a := R3(buffer, off, e, a, b, c, d, 41, before, s);
    c, e := R3(buffer, off, d, e, a, b, c, 42, before, s);
    b, d := R3(buffer, off, c, d, e, a, b, 43, before, s);
    a, c := R3(buffer, off, b, c, d, e, a, 44, before, s);
    e, b := R3(buffer, off, a, b, c, d, e, 45, before, s);
    d, a := R3(buffer, off, e, a, b, c, d, 46, before, s);
    c, e := R3(buffer, off, d, e, a, b, c, 47, before, s);
    b, d := R3(buffer, off, c, d, e, a, b, 48, before, s);
    a, c := R3(buffer, off, b, c, d, e, a, 49, before, s);
    e, b := R3(buffer, off, a, b, c, d, e, 50, before, s);
    d, a := R3(buffer, off, e, a, b, c, d, 51, before, s);
    c, e := R3(buffer, off, d, e, a, b, c, 52, before, s);
    b, d := R3(buffer, off, c, d, e, a, b, 53, before, s);
    a, c := R3(buffer, off, b, c, d, e, a, 54, before, s);
    e, b := R3(buffer, off, a, b, c, d, e, 55, before, s);
    d, a := R3(buffer, off, e, a, b, c, d, 56, before, s);
    c, e := R3(buffer, off, d, e, a, b, c, 57, before, s);
    b, d := R3(buffer, off, c, d, e, a, b, 58, before, s);
    a, c := R3(buffer, off, b, c, d, e, a, 59, before, s);
  }

  method Rounds60To80(buffer: array<bv8>, off: nat, a0: bv32, b0: bv32, c0: bv32, d0: bv32, e0: bv32,
                        ghost before: seq<bv8>, ghost s: State)
    returns (a: bv32, b: bv32, c: bv32, d: bv32, e: bv32)
    requires Running(buffer, off, before, s, 60, State(a0, b0, c0, d0, e0))
    modifies buffer
    ensures Running(buffer, off, before, s, 80, State(a, b, c, d, e))
  {
    hide *;
    a, b, c, d, e := a0, b0, c0, d0, e0;
    e, b := R4(buffer, off, a, b, c, d, e, 60, before, s);
    d, a := R4(buffer, off, e, a, b, c, d, 61, before, s);
    c, e := R4(buffer, off, d, e, a, b, c, 62, before, s);
    b, d := R4(buffer, off, c, d, e, a, b, 63, before, s);
    a, c := R4(buffer, off, b, c, d, e, a, 64, before, s);
    e, b := R4(buffer, off, a, b, c, d, e, 65, before, s);
    d, a := R4(buffer, off, e, a, b, c, d, 66, before, s);
    c, e := R4(buffer, off, d, e, a, b, c, 67, before, s);
    b, d := R4(buffer, off, c, d, e, a, b, 68, before, s);
    a, c := R4(buffer, off, b, c, d, e, a, 69, before, s);
    e, b := R4(buffer, off, a, b, c, d, e, 70, before, s);
    d, a := R4(buffer, off, e, a, b, c, d, 71, before, s);
    c, e := R4(buffer, off, d, e, a, b, c, 72, before, s);
    b, d := R4(buffer, off, c, d, e, a, b, 73, before, s);
    a, c := R4(buffer, off, b, c, d, e, a, 74, before, s);
    e, b := R4(buffer, off, a, b, c, d, e, 75, before, s);
    d, a := R4(buffer, off, e, a, b, c, d, 76, before, s);
    c, e := R4(buffer, off, d, e, a, b, c, 77, before, s);
    b, d := R4(buffer, off, c, d, e, a, b, 78, before, s);
    a, c := R4(buffer, off, b, c, d, e, a, 79, before, s);
  }

  lemma AfterAllRounds(m: seq<bv8>, s: State, r: State)
    requires |m| == 64 && r == Rounds(Schedule(m)[..80], s)
    ensures Compress(s, m) == Plus(s, r)
  {
    assert Schedule(m)[..80] == Schedule(m);
  }

  /** Byte k of a word as a little-endian machine stores it. */
  function StoredByte(w: bv32, k: nat): bv8
    requires k < 4
  {
    if k == 0 then LowByte(w) else if k == 1 then LowByte(w >> 8) else if k == 2 then LowByte(w >> 16) else LowByte(w >> 24)
  }

  /** What a block of memory holds after it was hashed: the last sixteen words of its own schedule. */
  function Residue(m: seq<bv8>): (r: seq<bv8>)
    requires |m| == 64
    ensures |r| == 64
  {
    seq(64, k requires 0 <= k < 64 => StoredByte(W(m, 64 + k / 4), k % 4))
  }

  lemma WordStored(b: seq<bv8>, j: nat)
    requires j + 4 <= |b|
    ensures var w := Little(b, j);
            b[j] == StoredByte(w, 0) && b[j + 1] == StoredByte(w, 1)
            && b[j + 2] == StoredByte(w, 2) && b[j + 3] == StoredByte(w, 3)
  {
  }

  lemma ResidueLeft(b: seq<bv8>, m: seq<bv8>)
    requires |b| == |m| == 64 && Circular(Words(b), m, 80)
    ensures b == Residue(m)
  {
    hide W, Little, StoredByte;
    forall k: nat | k < 64 ensures b[k] == StoredByte(W(m, 64 + k / 4), k % 4) {
      var i := k / 4;
      assert (64 + i) % 16 == i;
      assert Words(b)[(64 + i) % 16] == W(m, 64 + i);
      assert Words(b)[i] == Little(b, 4 * i);
      WordStored(b, 4 * i);
      assert b[4 * i + k % 4] == StoredByte(W(m, 64 + i), k % 4);
    }
  }

  /** The eighty rounds on the working variables. */
  method AllRounds(buffer: array<bv8>, off: nat, a0: bv32, b0: bv32, c0: bv32, d0: bv32, e0: bv32)
    returns (a: bv32, b: bv32, c: bv32, d: bv32, e: bv32)
    requires off + 64 <= buffer.Length
    modifies buffer
    ensures var s := State(a0, b0, c0, d0, e0);
            Compress(s, old(buffer[off..off + 64])) == Plus(s, State(a, b, c, d, e))
    ensures OnlyBlock(buffer[..], old(buffer[..]), off)
    ensures buffer[off..off + 64] == Residue(old(buffer[off..off + 64]))
  {
    ghost var before, s := buffer[..], State(a0, b0, c0, d0, e0);
    Started(buffer, off, s);
    hide Running, Compress, Plus, Residue, Circular, Words, OnlyBlock;
    a, b, c, d, e := Rounds0To20(buffer, off, a0, b0, c0, d0, e0, before, s);
    a, b, c, d, e := Rounds20To40(buffer, off, a, b, c, d, e, before, s);
    a, b, c, d, e := Rounds40To60(buffer, off, a, b, c, d, e, before, s);
    a, b, c, d, e := Rounds60To80(buffer, off, a, b, c, d, e, before, s);
    Concluded(buffer, off, before, s, State(a, b, c, d, e));
  }

  lemma Started(buffer: array<bv8>, off: nat, s: State)
    requires off + 64 <= buffer.Length
    ensures Running(buffer, off, buffer[..], s, 0, s)
  {
    assert buffer[..][off..off + 64] == buffer[off..off + 64];
  }

  lemma Concluded(buffer: array<bv8>, off: nat, before: seq<bv8>, s: State, r: State)
    requires off + 64 <= buffer.Length && Running(buffer, off, before, s, 80, r)
    ensures OnlyBlock(buffer[..], before, off)
    ensures Compress(s, before[off..off + 64]) == Plus(s, r)
    ensures buffer[off..off + 64] == Residue(before[off..off + 64])
  {
    AfterAllRounds(before[off..off + 64], s, r);
    ResidueLeft(buffer[off..off + 64], before[off..off + 64]);
  }

  /** SHA1_Transform: the state advances by one block, and the block's own bytes are left holding the last sixteen
    * words of its schedule. */
  method Transform(state: array<bv32>, buffer: array<bv8>, off: nat)
    requires state.Length == 5 && off + 64 <= buffer.Length
    modifies state, buffer
    ensures Registers(state) == Compress(old(Registers(state)), old(buffer[off..off + 64]))
    ensures OnlyBlock(buffer[..], old(buffer[..]), off)
    ensures buffer[off..off + 64] == Residue(old(buffer[off..off + 64]))
  {
    hide Compress, Residue, OnlyBlock, Added;
    var a, b, c, d, e := AllRounds(buffer, off, state[0], state[1], state[2], state[3], state[4]);
    state[0] := Added(state[0], a);
    state[1] := Added(state[1], b);
    state[2] := Added(state[2], c);
    state[3] := Added(state[3], d);
    state[4] := Added(state[4], e);
  }
}
