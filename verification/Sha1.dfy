/** The streaming hash of lib/sha1.c: a 64-byte buffer and a bit count in two 32-bit words. */
module Sha1 {
  import opened Sha1Spec
  import opened Sha1Block
  import opened Sha1Remains

  const SIZE: int := WORD * WORD

  /** What the two-word count should read after n bytes. */
  predicate Counts(high: nat, low: nat, n: nat) { high * WORD + low == 8 * n % SIZE }

  /** Whether the carry test of SHA1_Update means what it should: it compares the low word with all of len << 3. */
  predicate CarryIsRight(low: nat, len: nat) { 8 * len % SIZE < WORD || low + 8 * len % WORD >= WORD }

  /** The two words of the count after one more piece of len bytes, as SHA1_Update computes them. */
  function Advance(high: nat, low: nat, len: nat): (nat, nat) {
    var low' := (low + 8 * len % SIZE) % WORD;
    var carried := if low' < 8 * len % SIZE then (high + 1) % WORD else high;
    ((carried + len / 0x2000_0000) % WORD, low')
  }

  lemma AtLeast(d: int, m: int)
    requires d >= 1 && m >= 1
    ensures d * m >= m
  {
    if d > 1 {
      AtLeast(d - 1, m);
      assert d * m == (d - 1) * m + m;
    }
  }

  lemma NoMultiple(d: int, m: int)
    requires m >= 1 && -m < d * m < m
    ensures d == 0
  {
    if d >= 1 {
      AtLeast(d, m);
    } else if -d >= 1 {
      AtLeast(-d, m);
    }
  }

  lemma Quotient(x: int, m: int, q: int, r: int)
    requires 0 <= r < m && x == q * m + r
    ensures x / m == q && x % m == r
  {
    var p := x / m;
    assert (q - p) * m == q * m - p * m;
    NoMultiple(q - p, m);
  }

  /** Only the low word of what is added reaches the low word of a sum. */
  lemma LowWord(x: int, q: int, r: int)
    ensures (x + (q * WORD + r)) % WORD == (x + r) % WORD
  {
    var y := x + r;
    Quotient(y + q * WORD, WORD, y / WORD + q, y % WORD);
  }

  lemma ReducedFirst(x: int, q: int)
    ensures (x % WORD + q) % WORD == (x + q) % WORD
  {
    LowWord(x % WORD + q, x / WORD, 0);
  }

  /** len << 3 in two words. */
  lemma BitsOf(len: nat) returns (q: nat, r: nat)
    ensures q == len / 0x2000_0000 && r < WORD && 8 * len == q * WORD + r
    ensures 8 * len % SIZE == q % WORD * WORD + r && 8 * len % WORD == r
  {
    q, r := len / 0x2000_0000, 8 * (len % 0x2000_0000);
    Quotient(8 * len, WORD, q, r);
    Quotient(8 * len, SIZE, q / WORD, q % WORD * WORD + r);
  }

  /** The count as it should be after len more bytes: the carry is that of the low words. */
  lemma TrueCount(high: nat, low: nat, n: nat, len: nat, q: nat, r: nat)
    requires high < WORD && low < WORD && Counts(high, low, n)
    requires r < WORD && 8 * len == q * WORD + r
    ensures 8 * (n + len) % SIZE
         == (high + q + if low + r >= WORD then 1 else 0) % WORD * WORD + (low + r) % WORD
  {
    var carry := if low + r >= WORD then 1 else 0;
    var h := high + q + carry;
    Quotient(8 * (n + len), SIZE, 8 * n / SIZE + h / WORD, h % WORD * WORD + (low + r - carry * WORD));
  }

  lemma SameWord(x: int, k: int, l: int)
    requires 0 <= k <= 1 && 0 <= l <= 1
    ensures (x + k) % WORD == (x + l) % WORD <==> k == l
  {
  }

  /** The count as the code leaves it: its carry compares the new low word with all of len << 3. */
  lemma ComputedCount(high: nat, low: nat, len: nat, q: nat, r: nat)
    requires high < WORD && q == len / 0x2000_0000 && r < WORD && 8 * len % SIZE == q % WORD * WORD + r
    ensures Advance(high, low, len).1 == (low + r) % WORD
    ensures Advance(high, low, len).0
         == (high + q + if (low + r) % WORD < 8 * len % SIZE then 1 else 0) % WORD
  {
    LowWord(low, q % WORD, r);
    ReducedFirst(high + 1, q);
  }

  lemma SameCount(a: int, b: int, low: int)
    ensures a * WORD + low == b * WORD + low <==> a == b
  {
  }

  /** The test compares with too much when the piece has bits above the low word. */
  lemma CarryOfLowWords(low: nat, len: nat, q: nat, r: nat)
    requires low < WORD && r < WORD && 8 * len % SIZE == q * WORD + r && 8 * len % WORD == r
    ensures ((low + r) % WORD < 8 * len % SIZE <==> low + r >= WORD) <==> CarryIsRight(low, len)
  {
  }

  /** An exact count stays exact for precisely the pieces whose carry test is right. */
  lemma CountAdvances(high: nat, low: nat, n: nat, len: nat)
    requires high < WORD && low < WORD && Counts(high, low, n)
    ensures Counts(Advance(high, low, len).0, Advance(high, low, len).1, n + len) <==> CarryIsRight(low, len)
  {
    var q, r := BitsOf(len);
    var computed, carry := if (low + r) % WORD < 8 * len % SIZE then 1 else 0, if low + r >= WORD then 1 else 0;
    TrueCount(high, low, n, len, q, r);
    ComputedCount(high, low, len, q, r);
    hide Advance;
    SameWord(high + q, computed, carry);
    SameCount((high + q + computed) % WORD, (high + q + carry) % WORD, (low + r) % WORD);
    CarryOfLowWords(low, len, q % WORD, r);
    hide Counts, CarryIsRight;
  }

  lemma ShortPieces(low: nat, len: nat)
    requires len < 0x2000_0000
    ensures CarryIsRight(low, len)
  {
  }

  /** A first piece of 2^29 bytes is counted with a carry it does not have. */
  lemma LongPieceMiscounted()
    ensures Counts(0, 0, 0) && !CarryIsRight(0, 0x2000_0000)
    ensures Advance(0, 0, 0x2000_0000) == (2, 0)
  {
  }

  /** The low word alone gives the number of bytes waiting in the buffer. */
  lemma Waiting(low: nat, n: nat)
    requires low == 8 * n % WORD
    ensures low / 8 % 64 == n % 64
  {
    Quotient(low, 8, n % 0x2000_0000, 0) by {
      Quotient(8 * n, WORD, n / 0x2000_0000, 8 * (n % 0x2000_0000));
    }
  }

  lemma TakeBlock(m: seq<bv8>, k: nat)
    requires k % 64 == 0 && k + 64 <= |m|
    ensures (k + 64) % 64 == 0
    ensures Blocks(m[..k + 64]) == Compress(Blocks(m[..k]), m[k..k + 64])
  {
    assert m[..k + 64] == m[..k] + m[k..k + 64];
    BlocksOfOneMore(m[..k], m[k..k + 64]);
  }

  lemma LeftOver(n: nat, k: nat)
    requires k % 64 == 0 && k <= n < k + 64
    ensures n % 64 == n - k
  {
  }

  lemma WholeMessage(m: seq<bv8>)
    requires |m| % 64 == 0
    ensures m[..|m| - |m| % 64] == m
  {
  }

  lemma Refilled(now: seq<bv8>, head: seq<bv8>, piece: seq<bv8>, m: seq<bv8>, k: nat)
    requires k <= |m| && |head| + |piece| == |m| - k <= |now|
    requires now[..|head|] == head && now[|head|..|head| + |piece|] == piece
    requires m[k..k + |head|] == head && m[k + |head|..] == piece
    ensures now[..|m| - k] == m[k..]
  {
    assert now[..|m| - k] == now[..|head|] + now[|head|..|head| + |piece|];
    assert m[k..] == m[k..k + |head|] + m[k + |head|..];
  }

  /** Byte k of a word, the first the most significant: (w >> ((3 - k) * 8)) & 255. */
  function WordByte(w: bv32, k: nat): bv8
    requires k < 4
  {
    if k == 0 then LowByte(w >> 24) else if k == 1 then LowByte(w >> 16) else if k == 2 then LowByte(w >> 8) else LowByte(w)
  }

  lemma FieldByte(high: nat, low: nat, k: nat)
    requires k < 8
    ensures LengthField(high, low)[k] == ByteOf(if k >= 4 then low else high, k % 4)
  {
    hide ByteOf;
    var h, l := Bytes(high), Bytes(low);
    assert LengthField(high, low)[k] == if k >= 4 then l[k - 4] else h[k];
  }

  /** The test of the padding loop. */
  lemma PaddingDone(low: nat, n: nat)
    requires low == 8 * n % WORD
    ensures low % 512 - low % 8 == 448 <==> n % 64 == 56
  {
    Waiting(low, n);
    var j := low / 8;
    Quotient(low, 8, j, 0) by {
      Quotient(8 * n, WORD, n / 0x2000_0000, 8 * (n % 0x2000_0000));
    }
    Quotient(low, 512, j / 64, 8 * (j % 64));
  }

  /** memcpy between two arrays. */
  method Copy(from: array<bv8>, i: nat, to: array<bv8>, j: nat, n: nat)
    requires from != to && i + n <= from.Length && j + n <= to.Length
    modifies to
    ensures to[..] == old(to[..j]) + from[i..i + n] + old(to[j + n..])
  {
    for k := 0 to n
      invariant to[..] == old(to[..j]) + from[i..i + k] + old(to[j + k..])
    {
      to[j + k] := from[i + k];
    }
  }

  lemma LowWordCounts(high: nat, low: nat, n: nat, len: nat)
    requires high < WORD && low == 8 * n % WORD
    ensures Advance(high, low, len).1 == 8 * (n + len) % WORD
  {
    var q, r := BitsOf(len);
    ComputedCount(high, low, len, q, r);
    ReducedFirst(8 * n, r);
    LowWord(8 * n, q, r);
  }

  /** Memory that differs from `was` at most between lo and hi. */
  predicate Within(now: seq<bv8>, was: seq<bv8>, lo: int, hi: int) {
    |now| == |was| && 0 <= lo <= hi <= |now| && now[..lo] == was[..lo] && now[hi..] == was[hi..]
  }

  /** Bytes not yet hashed are still the message's. */
  lemma StillThere(now: seq<bv8>, was: seq<bv8>, lo: nat, i: nat, len: nat, m: seq<bv8>, k: nat)
    requires Within(now, was, lo, i) && i <= k <= len <= |was| && len <= |m| && m[|m| - len..] == was[..len]
    ensures now[i..k] == m[|m| - len + i..|m| - len + k]
  {
    assert now[i..k] == now[i..][..k - i] == was[i..][..k - i] == was[i..k] == was[..len][i..k];
    var t := |m| - len;
    assert m[t + i..t + k] == m[t..][i..k];
  }

  lemma RemainsOfBlocks(was: seq<bv8>, n: nat, len: nat, c: nat, i: nat)
    requires len <= |was| && n % 64 + len >= 64 && i == 64 - n % 64 + 64 * c && i <= len < i + 64
    ensures Remains(was, n, len) == Hashed(was, 64 - n % 64, c)
  {
    Quotient(n % 64 + len, 64, c + 1, len - i);
  }

  lemma NoneHashed(was: seq<bv8>, lo: nat)
    requires lo <= |was|
    ensures Hashed(was, lo, 0) == was
  {
  }

  /** The loop of SHA1_Update: the whole blocks of data from start on, hashed where they lie. The message m
    * ends with data[..len], and the state keeps up with what has been hashed of it. */
  method HashWhole(state: array<bv32>, data: array<bv8>, start: nat, len: nat, ghost m: seq<bv8>)
    returns (i: nat, ghost c: nat)
    requires state.Length == 5 && start <= len <= data.Length && len <= |m|
    requires (|m| - len + start) % 64 == 0 && m[|m| - len..] == data[..len]
    requires Registers(state) == Blocks(m[..|m| - len + start])
    modifies state, data
    ensures start <= i <= len < i + 64 && (|m| - len + i) % 64 == 0
    ensures Registers(state) == Blocks(m[..|m| - len + i])
    ensures i == start + 64 * c && data[..] == Hashed(old(data[..]), start, c)
  {
    hide Blocks, Compress, Residue, Registers, Hashed;
    ghost var n, was := |m| - len, data[..];
    i, c := start, 0;
    NoneHashed(was, start);
    while i + 63 < len
      invariant start <= i <= len
      invariant (n + i) % 64 == 0
      invariant Registers(state) == Blocks(m[..n + i])
      invariant i == start + 64 * c && data[..] == Hashed(was, start, c)
    {
      ghost var mid := data[..];
      StillThere(mid, was, start, i, len, m, i + 64);
      ghost var k := n + i;
      TakeBlock(m, k);
      assert data[i..i + 64] == mid[i..i + 64];
      Transform(state, data, i);
      assert data[..][i..i + 64] == data[i..i + 64];
      HashedOneMore(data[..], mid, was, start, c);
      i, c := i + 64, c + 1;
      assert n + i == k + 64;
    }
  }

  class Context {
    const state: array<bv32>
    var count0: nat
    var count1: nat
    const buffer: array<bv8>
    ghost var absorbed: seq<bv8>

    ghost predicate Valid()
      reads this, state, buffer
    {
      && state.Length == 5 && buffer.Length == 64
      && count0 == 8 * |absorbed| % WORD && count1 < WORD
      && Holds(absorbed)
    }

    /** The state is that of the whole blocks of m, the buffer holds the bytes left over. */
    ghost predicate Holds(m: seq<bv8>)
      requires state.Length == 5 && buffer.Length == 64
      reads this, state, buffer
    {
      var k := |m| - |m| % 64;
      Registers(state) == Blocks(m[..k]) && buffer[..|m| % 64] == m[k..]
    }

    constructor ()
      ensures Valid() && absorbed == [] && (count1, count0) == (0, 0)
      ensures fresh(state) && fresh(buffer)
    {
      state := new bv32[5] [0x67452301, 0xEFCDAB89, 0x98BADCFE, 0x10325476, 0xC3D2E1F0];
      buffer := new bv8[64];
      count0, count1 := 0, 0;
      absorbed := [];
    }

    method Update(data: array<bv8>, len: nat)
      requires Valid() && len <= data.Length && len < SIZE - 64 && data != buffer
      modifies this, state, buffer, data
      ensures Valid() && absorbed == old(absorbed) + old(data[..len])
      ensures (count1, count0) == Advance(old(count1), old(count0), len)
      ensures data[..] == Remains(old(data[..]), |old(absorbed)|, len)
    {
      hide Blocks, Compress, Registers, Advance, Remains;
      Waiting(count0, |absorbed|);
      LowWordCounts(count1, count0, |absorbed|, len);
      ghost var m := absorbed + data[..len];
      var j := count0 / 8 % 64;
      Count(len);
      Absorb(data, len, j);
      absorbed := m;
    }

    /** The first statements of SHA1_Update. */
    method Count(len: nat)
      requires count0 < WORD && count1 < WORD
      modifies `count0, `count1
      ensures (count1, count0) == Advance(old(count1), old(count0), len) && count1 < WORD
    {
      var bits := 8 * len % SIZE;
      count0 := (count0 + bits) % WORD;
      if count0 < bits {
        count1 := (count1 + 1) % WORD;
      }
      count1 := (count1 + len / 0x2000_0000) % WORD;
    }

    /** The rest of SHA1_Update: fill the buffer, hash what is whole, keep what is left. */
    method Absorb(data: array<bv8>, len: nat, j: nat)
      requires state.Length == 5 && buffer.Length == 64 && data != buffer
      requires len <= data.Length && j == |absorbed| % 64 && Holds(absorbed)
      modifies state, buffer, data
      ensures Holds(absorbed + old(data[..len]))
      ensures data[..] == Remains(old(data[..]), |absorbed|, len)
    {
      hide Blocks, Compress, Registers, Remains, Hashed;
      ghost var n, was, m := |absorbed|, data[..], absorbed + data[..len];
      var i, j' := 0, j;
      ghost var k, lo := n - j, 0;
      assert m[..k] == absorbed[..k];
      if j + len > 63 {
        ghost var c;
        i, c := Spill(data, len, j, m);
        j' := 0;
        k, lo := n + i, 64 - j;
        RemainsOfBlocks(was, n, len, c, i);
      } else {
        LeftAlone(was, n, len);
      }
      StillThere(data[..], was, lo, i, len, m, len);
      Keep(data, i, len, j', m, k);
    }

    /** The last statement of SHA1_Update: what is left of data joins the j bytes already in the buffer. */
    method Keep(data: array<bv8>, i: nat, len: nat, j: nat, ghost m: seq<bv8>, ghost k: nat)
      requires state.Length == 5 && buffer.Length == 64 && data != buffer
      requires i <= len <= data.Length && k <= |m| == k + j + len - i < k + 64 && k % 64 == 0
      requires Registers(state) == Blocks(m[..k]) && buffer[..j] == m[k..k + j] && data[i..len] == m[k + j..]
      modifies buffer
      ensures Holds(m)
    {
      hide Blocks, Compress, Circular, Words;
      LeftOver(|m|, k);
      Copy(data, i, buffer, j, len - i);
      Refilled(buffer[..], m[k..k + j], data[i..len], m, k);
    }

    /** The branch of SHA1_Update taken when a block fills up: the buffer first, then what data holds whole. */
    method Spill(data: array<bv8>, len: nat, j: nat, ghost m: seq<bv8>) returns (i: nat, ghost c: nat)
      requires state.Length == 5 && buffer.Length == 64 && data != buffer
      requires j < 64 <= j + len <= |m| && len <= data.Length && m[|m| - len..] == data[..len]
      requires (|m| - len - j) % 64 == 0 && Registers(state) == Blocks(m[..|m| - len - j])
      requires buffer[..j] == m[|m| - len - j..|m| - len]
      modifies state, buffer, data
      ensures 64 - j <= i <= len < i + 64 && (|m| - len + i) % 64 == 0
      ensures Registers(state) == Blocks(m[..|m| - len + i])
      ensures i == 64 - j + 64 * c && data[..] == Hashed(old(data[..]), 64 - j, c)
    {
      hide Blocks, Compress, Residue, Registers, Hashed;
      i := 64 - j;
      ghost var k := |m| - len - j;
      StillThere(data[..], data[..], 0, 0, len, m, i);
      Copy(data, 0, buffer, j, i);
      assert buffer[0..64] == m[k..k + 64];
      TakeBlock(m, k);
      Transform(state, buffer, 0);
      i, c := HashWhole(state, data, i, len, m);
    }

    /** The two words of the count, the high one first, byte by byte. */
    method FinalCount() returns (field: array<bv8>)
      ensures fresh(field) && field[..] == LengthField(count1, count0)
    {
      hide ByteOf, LengthField;
      field := new bv8[8];
      ghost var want := LengthField(count1, count0);
      for i := 0 to 8
        invariant field[..i] == want[..i]
      {
        FieldByte(count1, count0, i);
        field[i] := ByteOf(if i >= 4 then count0 else count1, i % 4);
      }
    }

    /** The padding loop of SHA1_Final: a byte 0x80, then nulls while (count[0] & 504) != 448. */
    method Pad()
      requires Valid()
      modifies this, state, buffer
      ensures Valid() && absorbed == old(absorbed) + Padding(|old(absorbed)|)
    {
      hide Blocks, Compress, Circular, Words, Registers, Advance, Holds, Remains;
      ghost var m := absorbed;
      var mark := new bv8[1] [0x80];
      Update(mark, 1);
      var nul := new bv8[1] [0];
      ghost var z := 0;
      PaddingDone(count0, |absorbed|);
      while count0 % 512 - count0 % 8 != 448
        invariant Valid() && nul[..] == [0] && nul != buffer
        invariant z <= Zeros(|m|) && absorbed == m + [0x80] + Zeroed(z)
        invariant count0 % 512 - count0 % 8 == 448 <==> |absorbed| % 64 == 56
        decreases Zeros(|m|) - z
      {
        ghost var n := |absorbed|;
        Update(nul, 1);
        LeftAlone([0], n, 1);
        z := z + 1;
        assert absorbed == m + [0x80] + Zeroed(z);
        PaddingDone(count0, |absorbed|);
      }
      ZerosAreFewest(|m|, z);
    }

    method Spell(digest: array<bv8>)
      requires state.Length == 5 && digest.Length == 20
      modifies digest
      ensures Spelled(digest[..]) == Registers(state)
    {
      for i := 0 to 20
        invariant forall k | 0 <= k < i :: digest[k] == WordByte(state[k / 4], k % 4)
      {
        digest[i] := WordByte(state[i / 4], i % 4);
      }
    }

    method Wipe()
      requires state.Length == 5 && buffer.Length == 64
      modifies this`count0, this`count1, state, buffer
      ensures count0 == count1 == 0
      ensures (forall k | 0 <= k < 64 :: buffer[k] == 0) && (forall k | 0 <= k < 5 :: state[k] == 0)
    {
      forall k | 0 <= k < 64 {
        buffer[k] := 0;
      }
      forall k | 0 <= k < 5 {
        state[k] := 0;
      }
      count0, count1 := 0, 0;
    }

    /** Padding, then the count as it stood before: the last block is hashed. */
    method Conclude()
      requires Valid()
      modifies this, state, buffer
      ensures state.Length == 5 && buffer.Length == 64
      ensures Registers(state) == Blocks(Ended(old(absorbed), old(count1), old(count0)))
    {
      hide Blocks, Registers, Advance, Remains, Padding, LengthField, Counts;
      var finalcount := FinalCount();
      Pad();
      ghost var m := absorbed + finalcount[..];
      assert m == Ended(old(absorbed), old(count1), old(count0));
      hide Ended;
      Update(finalcount, 8);
      WholeMessage(m);
      assert absorbed == m;
    }

    /** SHA1_Final: the digest is that of the message with the padding and the count as it stands. */
    method Final(digest: array<bv8>)
      requires Valid() && digest.Length == 20 && digest != buffer
      modifies this, state, buffer, digest
      ensures Spelled(digest[..]) == Blocks(Ended(old(absorbed), old(count1), old(count0)))
      ensures count0 == count1 == 0
      ensures (forall k | 0 <= k < 64 :: buffer[k] == 0) && (forall k | 0 <= k < 5 :: state[k] == 0)
    {
      hide Blocks, Registers, Ended, Spelled;
      Conclude();
      Spell(digest);
      Wipe();
    }
  }

  lemma TwoWords(high: nat, low: nat, x: nat)
    requires high < WORD && low < WORD && high * WORD + low == x % SIZE
    ensures x / WORD % WORD == high && x % WORD == low
  {
    var a := x / SIZE;
    Quotient(x, WORD, a * WORD + high, low);
    Quotient(a * WORD + high, WORD, a, high);
  }

  /** An exact count is what the padding of section 4 ends with. */
  lemma ExactCount(m: seq<bv8>, high: nat, low: nat)
    requires high < WORD && low < WORD && Counts(high, low, |m|)
    ensures Blocks(Ended(m, high, low)) == Sha1(m)
  {
    TwoWords(high, low, 8 * |m|);
  }

  /** The words of a digest leave no choice of its bytes. */
  lemma SpelledOnce(d: seq<bv8>, e: seq<bv8>)
    requires |d| == |e| == 20 && Spelled(d) == Spelled(e)
    ensures d == e
  {
    hide BigEndian, WordByte;
    forall k: nat | k < 20 ensures d[k] == e[k] {
      var j := k / 4 * 4;
      assert BigEndian(d, j) == BigEndian(e, j) by {
        assert j == 0 || j == 4 || j == 8 || j == 12 || j == 16;
      }
      SplitBigEndian(d, j);
      SplitBigEndian(e, j);
      assert d[j + k % 4] == e[j + k % 4];
    }
  }

  lemma SplitBigEndian(d: seq<bv8>, j: nat)
    requires j + 4 <= |d|
    ensures d[j] == WordByte(BigEndian(d, j), 0) && d[j + 1] == WordByte(BigEndian(d, j), 1)
    ensures d[j + 2] == WordByte(BigEndian(d, j), 2) && d[j + 3] == WordByte(BigEndian(d, j), 3)
  {
  }

  function Concat(pieces: seq<seq<bv8>>): seq<bv8> {
    if pieces == [] then [] else Concat(pieces[..|pieces| - 1]) + pieces[|pieces| - 1]
  }

  ghost function Contents(pieces: seq<array<bv8>>): (c: seq<seq<bv8>>)
    reads pieces
    ensures |c| == |pieces| && forall k | 0 <= k < |c| :: c[k] == pieces[k][..]
  {
    if pieces == [] then [] else Contents(pieces[..|pieces| - 1]) + [pieces[|pieces| - 1][..]]
  }

  lemma FirstPiece(pieces: seq<seq<bv8>>)
    ensures Concat(pieces[..0]) == [] && Counts(0, 0, 0)
  {
  }

  lemma ConcatOneMore(pieces: seq<seq<bv8>>, i: nat)
    requires i < |pieces|
    ensures Concat(pieces[..i + 1]) == Concat(pieces[..i]) + pieces[i]
  {
    assert pieces[..i + 1][..i] == pieces[..i];
  }

  /** However a message is split, the digest is that of the whole: one SHA1_Init, an SHA1_Update per piece, one
    * SHA1_Final. */
  method HashPieces(pieces: seq<array<bv8>>, digest: array<bv8>)
    requires digest.Length == 20 && digest !in pieces
    requires forall i, j | 0 <= i < j < |pieces| :: pieces[i] != pieces[j]
    requires forall i | 0 <= i < |pieces| :: pieces[i].Length < 0x2000_0000
    modifies pieces, digest
    ensures Spelled(digest[..]) == Sha1(Concat(old(Contents(pieces))))
  {
    hide Blocks, Advance, Remains, Spelled, Ended, Sha1, Concat, Contents, Counts, CarryIsRight;
    ghost var was := Contents(pieces);
    var context := new Context();
    FirstPiece(was);
    for i := 0 to |pieces|
      invariant context.Valid() && fresh(context) && fresh(context.state) && fresh(context.buffer)
      invariant context.absorbed == Concat(was[..i])
      invariant Counts(context.count1, context.count0, |context.absorbed|)
      invariant forall k | i <= k < |pieces| :: pieces[k][..] == was[k]
    {
      var len := pieces[i].Length;
      CountAdvances(context.count1, context.count0, |context.absorbed|, len);
      ShortPieces(context.count0, len);
      ConcatOneMore(was, i);
      context.Update(pieces[i], len);
    }
    assert was[..|pieces|] == was;
    ExactCount(context.absorbed, context.count1, context.count0);
    context.Final(digest);
  }
}
