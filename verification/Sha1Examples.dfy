/** The examples of FIPS PUB 180-1: appendix A hashes the three bytes "abc", appendix B a message of two blocks. */
module Sha1Examples {
  import opened Sha1Spec

  /** Eight words of a schedule, and the registers once their rounds are done. */
  datatype Row = Row(words: seq<bv32>, after: State)

  predicate WordsAt(m: seq<bv8>, t: nat, words: seq<bv32>)
    requires |m| == 64
  {
    |words| == 8 && forall i: nat | i < 8 :: W(m, t + i) == words[i]
  }

  /** The registers after the first n rounds of a block. */
  function After(m: seq<bv8>, s: State, n: nat): State
    requires |m| == 64 && n <= 80
  {
    Rounds(Schedule(m)[..n], s)
  }

  predicate IsRow(m: seq<bv8>, s: State, t: nat, row: Row)
    requires |m| == 64 && t + 8 <= 80
  {
    WordsAt(m, t, row.words) && After(m, s, t + 8) == row.after
  }

  function Mixed(p: bv32, q: bv32, r: bv32, s: bv32): bv32 { Rol(p ^ q ^ r ^ s, 1) }

  /** The eight words behind the sixteen in a and b. */
  function NextWords(a: seq<bv32>, b: seq<bv32>): (c: seq<bv32>)
    requires |a| == |b| == 8
    ensures |c| == 8
  {
    var w0, w1, w2 := Mixed(b[5], b[0], a[2], a[0]), Mixed(b[6], b[1], a[3], a[1]), Mixed(b[7], b[2], a[4], a[2]);
    var w3, w4, w5 := Mixed(w0, b[3], a[5], a[3]), Mixed(w1, b[4], a[6], a[4]), Mixed(w2, b[5], a[7], a[5]);
    [w0, w1, w2, w3, w4, w5, Mixed(w3, b[6], b[0], a[6]), Mixed(w4, b[7], b[1], a[7])]
  }

  function EightSteps(t: nat, w: seq<bv32>, s: State): State
    requires |w| == 8
  {
    var s4 := Step(t + 3, w[3], Step(t + 2, w[2], Step(t + 1, w[1], Step(t, w[0], s))));
    Step(t + 7, w[7], Step(t + 6, w[6], Step(t + 5, w[5], Step(t + 4, w[4], s4))))
  }

  lemma OneWordMore(m: seq<bv8>, t: nat)
    requires |m| == 64 && t >= 16
    ensures W(m, t) == Mixed(W(m, t - 3), W(m, t - 8), W(m, t - 14), W(m, t - 16))
  {
  }

  lemma WordsGoOn(m: seq<bv8>, t: nat, a: seq<bv32>, b: seq<bv32>)
    requires |m| == 64 && WordsAt(m, t, a) && WordsAt(m, t + 8, b)
    ensures WordsAt(m, t + 16, NextWords(a, b))
  {
    hide Mixed, W;
    OneWordMore(m, t + 16);
    OneWordMore(m, t + 17);
    OneWordMore(m, t + 18);
    OneWordMore(m, t + 19);
    OneWordMore(m, t + 20);
    OneWordMore(m, t + 21);
    OneWordMore(m, t + 22);
    OneWordMore(m, t + 23);
    assert a[0] == W(m, t) && a[1] == W(m, t + 1) && a[2] == W(m, t + 2) && a[3] == W(m, t + 3);
    assert a[4] == W(m, t + 4) && a[5] == W(m, t + 5) && a[6] == W(m, t + 6) && a[7] == W(m, t + 7);
    assert b[0] == W(m, t + 8) && b[1] == W(m, t + 9) && b[2] == W(m, t + 10) && b[3] == W(m, t + 11);
    assert b[4] == W(m, t + 12) && b[5] == W(m, t + 13) && b[6] == W(m, t + 14) && b[7] == W(m, t + 15);
  }

  lemma OneRoundMore(m: seq<bv8>, s: State, n: nat)
    requires |m| == 64 && n < 80
    ensures After(m, s, n + 1) == Step(n, W(m, n), After(m, s, n))
  {
    hide Step, W;
    assert Schedule(m)[..n + 1][..n] == Schedule(m)[..n];
  }

  lemma RoundsGoOn(m: seq<bv8>, s: State, t: nat, w: seq<bv32>)
    requires |m| == 64 && t + 8 <= 80 && WordsAt(m, t, w)
    ensures After(m, s, t + 8) == EightSteps(t, w, After(m, s, t))
  {
    hide Step, After, W;
    OneRoundMore(m, s, t);
    OneRoundMore(m, s, t + 1);
    OneRoundMore(m, s, t + 2);
    OneRoundMore(m, s, t + 3);
    OneRoundMore(m, s, t + 4);
    OneRoundMore(m, s, t + 5);
    OneRoundMore(m, s, t + 6);
    OneRoundMore(m, s, t + 7);
  }

  /** The words that 32 bytes of a block spell. */
  function WordsOf(h: seq<bv8>): (w: seq<bv32>)
    requires |h| == 32
    ensures |w| == 8
  {
    [BigEndian(h, 0), BigEndian(h, 4), BigEndian(h, 8), BigEndian(h, 12),
     BigEndian(h, 16), BigEndian(h, 20), BigEndian(h, 24), BigEndian(h, 28)]
  }

  function FourBytes(a: bv8, b: bv8, c: bv8, d: bv8): bv32 {
    (a as bv32 << 24) | (b as bv32 << 16) | (c as bv32 << 8) | d as bv32
  }

  lemma WordOfFourBytes(m: seq<bv8>, k: nat)
    requires k + 4 <= |m|
    ensures BigEndian(m, k) == FourBytes(m[k], m[k + 1], m[k + 2], m[k + 3])
  {
  }

  lemma SameWord(m: seq<bv8>, n: nat, h: seq<bv8>, i: nat)
    requires |m| == 64 && n < 16 && 4 * i + 4 <= |h|
    requires m[4 * n..4 * n + 4] == h[4 * i..4 * i + 4]
    ensures W(m, n) == BigEndian(h, 4 * i)
  {
    hide BigEndian, FourBytes;
    var u, v := m[4 * n..4 * n + 4], h[4 * i..4 * i + 4];
    assert u[0] == m[4 * n] && u[1] == m[4 * n + 1] && u[2] == m[4 * n + 2] && u[3] == m[4 * n + 3];
    assert v[0] == h[4 * i] && v[1] == h[4 * i + 1] && v[2] == h[4 * i + 2] && v[3] == h[4 * i + 3];
    WordOfFourBytes(m, 4 * n);
    WordOfFourBytes(h, 4 * i);
  }

  lemma SliceOfSlice(m: seq<bv8>, a: nat, i: nat)
    requires a + 32 <= |m| && i < 8
    ensures m[a..a + 32][4 * i..4 * i + 4] == m[a + 4 * i..a + 4 * i + 4]
  {
  }

  lemma WordsOfHalf(m: seq<bv8>, t: nat, h: seq<bv8>)
    requires |m| == 64 && (t == 0 || t == 8) && |h| == 32 && m[4 * t..4 * t + 32] == h
    ensures WordsAt(m, t, WordsOf(h))
  {
    hide BigEndian, W;
    forall i: nat | i < 8 ensures W(m, t + i) == WordsOf(h)[i] {
      SliceOfSlice(m, 4 * t, i);
      assert 4 * t + 4 * i == 4 * (t + i);
      SameWord(m, t + i, h, i);
      assert i == 0 || i == 1 || i == 2 || i == 3 || i == 4 || i == 5 || i == 6 || i == 7;
    }
  }

  /** What one row of a table is computed to from the two rows before it. */
  predicate Follows(t: nat, a: Row, b: Row, c: Row) {
    && |a.words| == |b.words| == |c.words| == 8
    && c.words == NextWords(a.words, b.words) && c.after == EightSteps(t, c.words, b.after)
  }

  lemma NextRow(m: seq<bv8>, s: State, t: nat, a: Row, b: Row, c: Row)
    requires |m| == 64 && t + 24 <= 80 && IsRow(m, s, t, a) && IsRow(m, s, t + 8, b) && Follows(t + 16, a, b, c)
    ensures IsRow(m, s, t + 16, c)
  {
    hide NextWords, EightSteps, After, W;
    WordsGoOn(m, t, a.words, b.words);
    RoundsGoOn(m, s, t + 16, c.words);
  }

  /** A table of ten rows, each computed from the two before it. */
  predicate IsTable(rows: seq<Row>) {
    |rows| == 10 && forall i | 2 <= i < 10 :: Follows(8 * i, rows[i - 2], rows[i - 1], rows[i])
  }

  lemma {:induction false} RowsOfTable(m: seq<bv8>, s: State, rows: seq<Row>, i: nat)
    requires |m| == 64 && IsTable(rows) && i < 9
    requires IsRow(m, s, 0, rows[0]) && IsRow(m, s, 8, rows[1])
    ensures IsRow(m, s, 8 * i, rows[i]) && IsRow(m, s, 8 * i + 8, rows[i + 1])
  {
    hide IsRow, Follows;
    if i > 0 {
      RowsOfTable(m, s, rows, i - 1);
      assert Follows(8 * (i + 1), rows[i - 1], rows[i], rows[i + 1]);
      NextRow(m, s, 8 * (i - 1), rows[i - 1], rows[i], rows[i + 1]);
    }
  }

  /** A table that begins with the sixteen words of a block ends with what its rounds make of the registers. */
  lemma TableOfBlock(m: seq<bv8>, s: State, rows: seq<Row>)
    requires |m| == 64 && IsTable(rows)
    requires WordsAt(m, 0, rows[0].words) && rows[0].after == EightSteps(0, rows[0].words, s)
    requires WordsAt(m, 8, rows[1].words) && rows[1].after == EightSteps(8, rows[1].words, rows[0].after)
    ensures Compress(s, m) == Plus(s, rows[9].after)
  {
    hide EightSteps, W, Follows;
    RoundsGoOn(m, s, 0, rows[0].words);
    RoundsGoOn(m, s, 8, rows[1].words);
    RowsOfTable(m, s, rows, 8);
    assert Schedule(m)[..0] == [] && Schedule(m)[..80] == Schedule(m);
  }

  // ---- Appendix A: "abc" ------------------------------------------------------------------

  const ABC: seq<bv8> := [0x61, 0x62, 0x63]

  const A0: Row := Row([0x61626380, 0x00000000, 0x00000000, 0x00000000, 0x00000000, 0x00000000, 0x00000000, 0x00000000],
                         State(0x9E8C07D4, 0x993E30C1, 0x0FF1F290, 0xB3F52677, 0xF3763846))
  const A1: Row := Row([0x00000000, 0x00000000, 0x00000000, 0x00000000, 0x00000000, 0x00000000, 0x00000000, 0x00000018],
                         State(0x20BDD62F, 0x196BEE77, 0x644A3DA5, 0x1181ED99, 0x18C623F9))
  const A2: Row := Row([0xC2C4C700, 0x00000000, 0x00000030, 0x85898E01, 0x00000000, 0x00000060, 0x0B131C03, 0x00000030],
                         State(0xD541F12D, 0x21283486, 0x0CE88EFF, 0x868DEC32, 0x7F67875F))
  const A3: Row := Row([0x85898EC1, 0x16263806, 0x00000000, 0x00000180, 0x2C4C700C, 0x000000F0, 0x93AFB507, 0x5898E048],
                         State(0x3B845D33, 0x1267B407, 0x717EEBD7, 0xA0DC2D4B, 0xD2AA1365))
  const A4: Row := Row([0x8E9A9202, 0x00000600, 0xB131C0F0, 0x16263BC6, 0x4EBED41E, 0x626380A1, 0x16263806, 0x000018C0],
                         State(0x32DE1CBA, 0x4C986405, 0xF718E5CF, 0x03D447F6, 0xF72EEC32))
  const A5: Row := Row([0xD2E138C4, 0x00000F00, 0x3AFB5079, 0x898E04E5, 0xE2BA3C2B, 0x000060C0, 0x053A37CD, 0x74458547],
                         State(0xBEAD02CA, 0xA01B846C, 0x8714787C, 0x503CA382, 0xFB86C6AB))
  const A6: Row := Row([0xDA9415ED, 0x26380A16, 0x626383A1, 0x4EBF54DE, 0x3835B44B, 0x0000F600, 0x1E84C7A3, 0x98E04D98],
                         State(0x5E6456AF, 0x7B71F76D, 0x09FA7C76, 0x792410DB, 0x8E11EB59))
  const A7: Row := Row([0x651D16A0, 0x62658CA1, 0x458544D6, 0x44584CB7, 0x7BA06619, 0x6380AEA2, 0x0AE55269, 0x627B49A1],
                         State(0x6B61C9E1, 0xB66C020B, 0x9523272C, 0xF5D5B051, 0x8FD4B796))
  const A8: Row := Row([0x7CD45C9D, 0x000F0000, 0xFB50753A, 0xEC6765E8, 0xBA3C2BE2, 0x0060C000, 0x3A37CD05, 0x458546F4],
                         State(0x39859DE7, 0xC199F8C7, 0x8FC96230, 0x125C24F0, 0xDE37534A))
  const A9: Row := Row([0xB8599DD6, 0x380A1A26, 0x01E02203, 0xE7CC3456, 0xE6E60B69, 0x00F60A00, 0x5795EF4F, 0x822E0879],
                         State(0x42541B35, 0x5738D5E1, 0x21834873, 0x681E6DF6, 0xD8FDF6AD))
  const TABLE_A: seq<Row> := [A0, A1, A2, A3, A4, A5, A6, A7, A8, A9]

  lemma RowsOfA()
    ensures Follows(16, A0, A1, A2)
    ensures Follows(24, A1, A2, A3)
    ensures Follows(32, A2, A3, A4)
    ensures Follows(40, A3, A4, A5)
    ensures Follows(48, A4, A5, A6)
    ensures Follows(56, A5, A6, A7)
    ensures Follows(64, A6, A7, A8)
    ensures Follows(72, A7, A8, A9)
  {
  }

  lemma AIsTable()
    ensures IsTable(TABLE_A)
  {
    hide Follows;
    RowsOfA();
    assert TABLE_A[0] == A0 && TABLE_A[1] == A1;
  }

  lemma AStarts()
    ensures A0.after == EightSteps(0, A0.words, INITIAL)
    ensures A1.after == EightSteps(8, A1.words, A0.after)
  {
  }

  lemma OneByte(n: nat, k: nat, b: nat)
    requires k < 4 && b < 0x100
    requires b == (if k == 0 then n / 0x100_0000 else if k == 1 then n / 0x1_0000 else if k == 2 then n / 0x100 else n) % 0x100
    ensures ByteOf(n, k) == b as bv8
  {
  }

  /** The bytes of a number that fits sixteen bits. */
  lemma ShortBytes(n: nat, high: nat, low: nat)
    requires high < 0x100 && low < 0x100 && n == 0x100 * high + low
    ensures Bytes(n) == [0, 0, high as bv8, low as bv8]
  {
    hide ByteOf;
    assert n / 0x100_0000 == 0 && n / 0x1_0000 == 0 && n / 0x100 % 0x100 == high && n % 0x100 == low;
    OneByte(n, 0, 0);
    OneByte(n, 1, 0);
    OneByte(n, 2, high);
    OneByte(n, 3, low);
  }

  lemma AbcLength()
    ensures LengthField(0, 24) == Zeroed(7) + [0x18] && Padding(3) == [0x80] + Zeroed(52)
  {
    hide Bytes;
    ShortBytes(0, 0, 0);
    ShortBytes(24, 0, 0x18);
  }

  lemma AbcPadded()
    ensures Padded(ABC) == [0x61, 0x62, 0x63, 0x80] + Zeroed(28) + Zeroed(31) + [0x18]
  {
    hide Padding, LengthField;
    AbcLength();
  }

  lemma AbcWords()
    ensures |Padded(ABC)| == 64 && WordsAt(Padded(ABC), 0, A0.words) && WordsAt(Padded(ABC), 8, A1.words)
  {
    hide Padded, Zeros;
    AbcPadded();
    var upper, lower := [0x61, 0x62, 0x63, 0x80] + Zeroed(28), Zeroed(31) + [0x18];
    assert Padded(ABC) == upper + lower;
    WordsOfHalf(Padded(ABC), 0, upper);
    WordsOfHalf(Padded(ABC), 8, lower);
  }

  /** The digest of "abc". */
  lemma AbcHashed()
    ensures Sha1(ABC) == State(0xA9993E36, 0x4706816A, 0xBA3E2571, 0x7850C26C, 0x9CD0D89D)
  {
    hide IsTable, WordsAt, EightSteps, Padded, Compress;
    AbcWords();
    AStarts();
    AIsTable();
    TableOfBlock(Padded(ABC), INITIAL, TABLE_A);
    FirstBlock(Padded(ABC));
  }

  lemma FirstBlock(m: seq<bv8>)
    requires |m| == 64
    ensures Blocks(m) == Compress(INITIAL, m)
  {
    assert m[..0] == [] && m[0..] == m;
    hide Compress;
  }

  // ---- Appendix B: "abcdbcdecdefdefgefghfghighijhijkijkljklmklmnlmnomnopnopq" ----------------

  const LETTERS: seq<bv8> := [
    0x61, 0x62, 0x63, 0x64, 0x62, 0x63, 0x64, 0x65, 0x63, 0x64, 0x65, 0x66, 0x64, 0x65, 0x66, 0x67,
    0x65, 0x66, 0x67, 0x68, 0x66, 0x67, 0x68, 0x69, 0x67, 0x68, 0x69, 0x6A, 0x68, 0x69, 0x6A, 0x6B]
  const MORE_LETTERS: seq<bv8> := [
    0x69, 0x6A, 0x6B, 0x6C, 0x6A, 0x6B, 0x6C, 0x6D, 0x6B, 0x6C, 0x6D, 0x6E, 0x6C, 0x6D, 0x6E, 0x6F,
    0x6D, 0x6E, 0x6F, 0x70, 0x6E, 0x6F, 0x70, 0x71]

  const MESSAGE: seq<bv8> := LETTERS + MORE_LETTERS

  const B0: Row := Row([0x61626364, 0x62636465, 0x63646566, 0x64656667, 0x65666768, 0x66676869, 0x6768696A, 0x68696A6B],
                         State(0x45833F0F, 0xDB04CB58, 0x65AE1462, 0xCCFD2B96, 0x0B13DBAB))
  const B1: Row := Row([0x696A6B6C, 0x6A6B6C6D, 0x6B6C6D6E, 0x6C6D6E6F, 0x6D6E6F70, 0x6E6F7071, 0x80000000, 0x00000000],
                         State(0x42637E39, 0xB2E7A8BE, 0x4CBE52A1, 0xA180D207, 0xB867B2A8))
  const B2: Row := Row([0x0A063A3E, 0xD8DADCDF, 0xDADCDEC0, 0xC8D2B4BE, 0x6F757B5B, 0x757B5967, 0x8DA16D70, 0xDAEEFABA],
                         State(0xFD224575, 0xE2B92DC4, 0xC254445D, 0x6560DB69, 0x9B111594))
  const B3: Row := Row([0xFAF6CAB6, 0xA6FB675A, 0x0C604CC8, 0x604CC02C, 0x49C0E6E2, 0x2EE8CBBC, 0xCFD72EC4, 0x97E9810E],
                         State(0x52E31F60, 0xA9C84BEC, 0x816D15EC, 0x78448908, 0x3549A991))
  const B4: Row := Row([0x0989CBE8, 0xF24843FE, 0x5C40D0BA, 0xA8D9CC3B, 0xB2B9666E, 0xBA7B71B7, 0x20B28A72, 0xB28AF500],
                         State(0xADEB7478, 0x24957F22, 0x50FE1EBA, 0x564CFF26, 0xAADF0CBB))
  const B5: Row := Row([0x8AC87842, 0x289ADDF4, 0x56D51F21, 0xD96B7FD2, 0x3868E778, 0xAB5E4848, 0x7F0E2118, 0xDE87A111],
                         State(0xC8A69090, 0xA2AD4F02, 0xB1BA8907, 0x26307A99, 0x58CFA558))
  const B6: Row := Row([0xE8BE56B0, 0x1A0AE652, 0xCD5611C8, 0x46EF29DC, 0x60D3DA6D, 0xDDF3BA6E, 0x2737F5E9, 0x4888A710],
                         State(0x776C3910, 0x36D1230A, 0x7B7AA56C, 0x33A24B84, 0x234B9DB2))
  const B7: Row := Row([0xD2A1177B, 0x9999633B, 0xD6C69D03, 0xCCF6127B, 0x7C58FE6D, 0xFDD99C68, 0xF8E32074, 0xE0BA3C7D],
                         State(0x513F9CA0, 0x2BFAF7A8, 0x10203537, 0xCD8952C4, 0xE7BDDD70))
  const B8: Row := Row([0x152198D6, 0x7B3F1982, 0x37F2D5B7, 0x8596323E, 0x810790D6, 0xBEA0A942, 0x11C7E1B1, 0x6158D101],
                         State(0x84065712, 0x112B96E3, 0xFF7DBBFF, 0x4B1EC1EF, 0x5B45F27F))
  const B9: Row := Row([0x5FCD77D9, 0x7F2F12E6, 0xF868CFB1, 0xD6E997E9, 0xF526B852, 0xB7578DCC, 0x55D99DF4, 0x1FF69958],
                         State(0x8CE34517, 0xD3AD7C25, 0x6B4E1883, 0x74351CD2, 0x86838382))
  const TABLE_B: seq<Row> := [B0, B1, B2, B3, B4, B5, B6, B7, B8, B9]

  lemma RowsOfB()
    ensures Follows(16, B0, B1, B2)
    ensures Follows(24, B1, B2, B3)
    ensures Follows(32, B2, B3, B4)
    ensures Follows(40, B3, B4, B5)
    ensures Follows(48, B4, B5, B6)
    ensures Follows(56, B5, B6, B7)
    ensures Follows(64, B6, B7, B8)
    ensures Follows(72, B7, B8, B9)
  {
  }

  lemma BIsTable()
    ensures IsTable(TABLE_B)
  {
    hide Follows;
    RowsOfB();
    assert TABLE_B[0] == B0 && TABLE_B[1] == B1;
  }

  lemma BStarts()
    ensures B0.after == EightSteps(0, B0.words, INITIAL)
    ensures B1.after == EightSteps(8, B1.words, B0.after)
  {
  }

  /** The registers after the first block. */
  const MIDDLE: State := State(0xF4286818, 0xC37B27AE, 0x0408F581, 0x84677148, 0x4A566572)

  const C0: Row := Row([0x00000000, 0x00000000, 0x00000000, 0x00000000, 0x00000000, 0x00000000, 0x00000000, 0x00000000],
                         State(0xC6946813, 0xE7FA0377, 0x1510E457, 0xD078D09D, 0xBBBDD0F1))
  const C1: Row := Row([0x00000000, 0x00000000, 0x00000000, 0x00000000, 0x00000000, 0x00000000, 0x00000000, 0x000001C0],
                         State(0xD9772360, 0x258B0BAA, 0x2898132A, 0xFFB35EEF, 0xD0E89E4B))
  const C2: Row := Row([0x00000000, 0x00000000, 0x00000380, 0x00000000, 0x00000000, 0x00000700, 0x00000000, 0x00000380],
                         State(0x8FBAA5B9, 0x9AD594B9, 0x7BA1C02F, 0xCDD20BD7, 0xF6264854))
  const C3: Row := Row([0x00000E00, 0x00000000, 0x00000000, 0x00001C00, 0x00000000, 0x00000D80, 0x00003800, 0x00000480],
                         State(0x8A4AF384, 0x17986223, 0x028BEC42, 0xC90A6F97, 0xD7105B6B))
  const C4: Row := Row([0x00000000, 0x00007000, 0x00000E00, 0x00003600, 0x0000E000, 0x00000E00, 0x00000000, 0x0001CE00],
                         State(0x03BB6310, 0x84E2A5F2, 0x21F56E03, 0xB3BD6B84, 0x1A5B6901))
  const C5: Row := Row([0x00000000, 0x0000D800, 0x00038000, 0x00004F00, 0x00000000, 0x00070E00, 0x0000EE00, 0x00037500],
                         State(0x46F93B68, 0x7316056A, 0xB0F40CFA, 0xCF2BB5EB, 0x7B074F58))
  const C6: Row := Row([0x000E0000, 0x0000E000, 0x00003600, 0x001CEE00, 0x00000000, 0x000DF000, 0x00380000, 0x0004C600],
                         State(0x6DA72E7F, 0x2BDBB8CB, 0x10C7596F, 0x05E5F88A, 0x627EF507))
  const C7: Row := Row([0x0000E000, 0x0070EE00, 0x000EE000, 0x00369E00, 0x00E00000, 0x000ED600, 0x0000E000, 0x01CEA600],
                         State(0xD504902B, 0xF66D9BF4, 0x24D85327, 0xDEAAC406, 0xE996063D))
  const C8: Row := Row([0x00000000, 0x00D80000, 0x0380E000, 0x004F0000, 0x00000000, 0x070E0000, 0x00EE0000, 0x03751C00],
                         State(0xAE1B8E7B, 0x8B2C7573, 0x66277459, 0xDDB0158E, 0xFD889AEF))
  const C9: Row := Row([0x0E000000, 0x00E0E000, 0x00363800, 0x1CEE9000, 0x00000000, 0x0DF09000, 0x3800E000, 0x04C77400],
                         State(0x906FD62C, 0x58C0AAC0, 0xB6A55520, 0x74E9B89D, 0x9AF00B7F))
  const TABLE_C: seq<Row> := [C0, C1, C2, C3, C4, C5, C6, C7, C8, C9]

  lemma RowsOfC()
    ensures Follows(16, C0, C1, C2)
    ensures Follows(24, C1, C2, C3)
    ensures Follows(32, C2, C3, C4)
    ensures Follows(40, C3, C4, C5)
    ensures Follows(48, C4, C5, C6)
    ensures Follows(56, C5, C6, C7)
    ensures Follows(64, C6, C7, C8)
    ensures Follows(72, C7, C8, C9)
  {
  }

  lemma CIsTable()
    ensures IsTable(TABLE_C)
  {
    hide Follows;
    RowsOfC();
    assert TABLE_C[0] == C0 && TABLE_C[1] == C1;
  }

  lemma CStarts()
    ensures C0.after == EightSteps(0, C0.words, MIDDLE)
    ensures C1.after == EightSteps(8, C1.words, C0.after)
  {
  }

  lemma MessageLength()
    ensures LengthField(0, 448) == Zeroed(6) + [0x01, 0xC0] && Padding(56) == [0x80] + Zeroed(63)
  {
    hide Bytes;
    ShortBytes(0, 0, 0);
    ShortBytes(448, 0x01, 0xC0);
  }

  lemma MessagePadded()
    ensures Padded(MESSAGE) == LETTERS + (MORE_LETTERS + [0x80] + Zeroed(7)) + (Zeroed(32) + (Zeroed(30) + [0x01, 0xC0]))
  {
    hide Padding, LengthField;
    MessageLength();
  }

  lemma LettersSpell()
    ensures WordsOf(LETTERS) == B0.words
  {
  }

  lemma MoreLettersSpell()
    ensures |MORE_LETTERS| == 24 && WordsOf(MORE_LETTERS + [0x80] + Zeroed(7)) == B1.words
  {
  }

  lemma FirstWords(m: seq<bv8>)
    requires m == LETTERS + (MORE_LETTERS + [0x80] + Zeroed(7))
    ensures |m| == 64 && WordsAt(m, 0, B0.words) && WordsAt(m, 8, B1.words)
  {
    hide WordsOf, WordsAt;
    LettersSpell();
    MoreLettersSpell();
    WordsOfHalf(m, 0, LETTERS);
    WordsOfHalf(m, 8, MORE_LETTERS + [0x80] + Zeroed(7));
  }

  lemma SecondWords(m: seq<bv8>)
    requires m == Zeroed(32) + (Zeroed(30) + [0x01, 0xC0])
    ensures |m| == 64 && WordsAt(m, 0, C0.words) && WordsAt(m, 8, C1.words)
  {
    WordsOfHalf(m, 0, Zeroed(32));
    WordsOfHalf(m, 8, Zeroed(30) + [0x01, 0xC0]);
  }

  /** The digest of that message of two blocks. */
  lemma MessageHashed()
    ensures Sha1(MESSAGE) == State(0x84983E44, 0x1C3BD26E, 0xBAAE4AA1, 0xF95129E5, 0xE54670F1)
  {
    hide IsTable, WordsAt, EightSteps, Padded, Compress, Blocks;
    var m1, m2 := LETTERS + (MORE_LETTERS + [0x80] + Zeroed(7)), Zeroed(32) + (Zeroed(30) + [0x01, 0xC0]);
    MessagePadded();
    FirstWords(m1);
    BStarts();
    BIsTable();
    TableOfBlock(m1, INITIAL, TABLE_B);
    FirstBlock(m1);
    SecondWords(m2);
    CStarts();
    CIsTable();
    TableOfBlock(m2, MIDDLE, TABLE_C);
    BlocksOfOneMore(m1, m2);
    assert Padded(MESSAGE) == m1 + m2;
  }
}
