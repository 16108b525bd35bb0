/** What the codec of UrlCodec does to single characters, in terms of the characters. */
module UrlExamples {
  import opened UrlCodec

  const LOWER: string := "0123456789abcdef"
  const UPPER: string := "0123456789ABCDEF"

  predicate IsDigit(c: char) { '0' <= c <= '9' }

  predicate IsLetter(c: char) { 'A' <= c <= 'Z' || 'a' <= c <= 'z' }

  lemma Digits(v: nat)
    requires v < 16
    ensures |LOWER| == |UPPER| == 16
    ensures LOWER[v] as int == if v < 10 then 48 + v else 87 + v
    ensures UPPER[v] as int == if v < 10 then 48 + v else 55 + v
  {
    assert v == 0 || v == 1 || v == 2 || v == 3 || v == 4 || v == 5 || v == 6 || v == 7
        || v == 8 || v == 9 || v == 10 || v == 11 || v == 12 || v == 13 || v == 14 || v == 15;
  }

  /** A byte as its character. */
  function Char(c: bv8): char { c as char }

  lemma UnreservedIff(c: bv8)
    ensures Unreserved(c)
       <==> IsLetter(Char(c)) || IsDigit(Char(c)) || Char(c) == '-' || Char(c) == '_' || Char(c) == '.' || Char(c) == '~'
  {
  }

  lemma HexDigit(v: bv8)
    requires v < 16
    ensures ToHex(v) as nat == if v < 10 then 48 + v as nat else 87 + v as nat
  {
  }

  lemma Halves(c: bv8)
    ensures (c >> 4) as nat == c as nat / 16 && (c & 15) as nat == c as nat % 16
  {
  }

  /** Letters, digits and four marks stand for themselves, a space becomes '+', everything else '%' and two
    * hexadecimal digits, the high one first. */
  lemma EncodedAs(c: bv8)
    ensures |LOWER| == 16
    ensures var s, x := EncodeByte(c), Char(c);
            if IsLetter(x) || IsDigit(x) || x == '-' || x == '_' || x == '.' || x == '~' then s == [c]
            else if x == ' ' then |s| == 1 && Char(s[0]) == '+'
            else |s| == 3 && Char(s[0]) == '%' && Char(s[1]) == LOWER[c as nat / 16] && Char(s[2]) == LOWER[c as nat % 16]
  {
    hide Unreserved, ToHex;
    UnreservedIff(c);
    Halves(c);
    Digits(c as nat / 16);
    Digits(c as nat % 16);
    HexDigit(c >> 4);
    HexDigit(c & 15);
  }

  lemma HexValue(c: bv8, v: nat)
    requires v < 16 && (Char(c) == LOWER[v] || Char(c) == UPPER[v])
    ensures FromHex(c) as nat == v
  {
    hide FromHex;
    Digits(v);
    HexCode(c, v);
  }

  lemma HexCode(c: bv8, v: nat)
    requires v < 16
    ensures c as nat == (if v < 10 then 48 + v else 87 + v) ==> FromHex(c) as nat == v
    ensures c as nat == (if v < 10 then 48 + v else 55 + v) ==> FromHex(c) as nat == v
  {
  }

  lemma OneByteOfTwo(u: bv8, v: bv8)
    requires u < 16 && v < 16
    ensures ((u << 4) | v) as nat == 16 * u as nat + v as nat
  {
  }

  lemma PairedAs(x: bv8, y: bv8, u: nat, v: nat)
    requires u < 16 && (Char(x) == LOWER[u] || Char(x) == UPPER[u])
    requires v < 16 && (Char(y) == LOWER[v] || Char(y) == UPPER[v])
    ensures Paired(x, y) as nat == 16 * u + v
  {
    hide FromHex;
    HexValue(x, u);
    HexValue(y, v);
    OneByteOfTwo(FromHex(x), FromHex(y));
  }

  /** An escape is read with digits of either case, a '+' as a space, and what follows by itself. */
  lemma DecodedAs(x: bv8, y: bv8, u: nat, v: nat, rest: seq<bv8>)
    requires u < 16 && (Char(x) == LOWER[u] || Char(x) == UPPER[u])
    requires v < 16 && (Char(y) == LOWER[v] || Char(y) == UPPER[v])
    ensures var s := Decode([PERCENT, x, y] + rest); s != [] && s[0] as nat == 16 * u + v && s[1..] == Decode(rest)
    ensures Decode([PLUS] + rest) == [SPACE] + Decode(rest)
    ensures Char(PERCENT) == '%' && Char(PLUS) == '+' && Char(SPACE) == ' '
  {
    hide Paired;
    PairedAs(x, y, u, v);
    var escape, plus := [PERCENT, x, y] + rest, [PLUS] + rest;
    assert escape[3..] == rest && plus[1..] == rest;
  }

  /** " /" becomes "+%2f", and "%41+b" is "A b". */
  lemma Examples()
    ensures Encode([0x20, 0x2F]) == [0x2B, 0x25, 0x32, 0x66]
    ensures Decode([0x25, 0x34, 0x31, 0x2B, 0x62]) == [0x41, 0x20, 0x62]
  {
  }
}
