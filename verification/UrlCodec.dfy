/** url_encode and url_decode of lib/utils.c: percent-encoding (section 2.1 of RFC 3986) with '+' for a space. */
module UrlCodec {

  /** The bytes of a C string, without the null that ends it. */
  type CString = s: seq<bv8> | 0 !in s

  const PERCENT: bv8 := 37
  const PLUS: bv8 := 43
  const SPACE: bv8 := 32

  /** What *p reads at offset i of a string. */
  function CharAt(s: CString, i: nat): bv8
    requires i <= |s|
  {
    if i < |s| then s[i] else 0
  }

  /** isalnum in the C locale, and the four other unreserved characters of RFC 3986, section 2.3. */
  predicate Unreserved(c: bv8) {
    48 <= c <= 57 || 65 <= c <= 90 || 97 <= c <= 122 || c == 45 || c == 95 || c == 46 || c == 126
  }

  function ToHex(code: bv8): bv8 { var d := code & 15; if d < 10 then 48 + d else 87 + d }

  function High(c: bv8): bv8 { ToHex(c >> 4) }

  function Low(c: bv8): bv8 { ToHex(c & 15) }

  /** from_hex, in eight bits; it does not check that ch is a hexadecimal digit. */
  function FromHex(ch: bv8): bv8 {
    if 48 <= ch <= 57 then ch - 48 else (if 65 <= ch <= 90 then ch + 32 else ch) - 97 + 10
  }

  function Paired(x: bv8, y: bv8): bv8 { (FromHex(x) << 4) | FromHex(y) }

  function EncodeByte(c: bv8): seq<bv8> {
    if Unreserved(c) then [c] else if c == SPACE then [PLUS] else [PERCENT, High(c), Low(c)]
  }

  function Encode(s: seq<bv8>): seq<bv8> {
    if s == [] then [] else EncodeByte(s[0]) + Encode(s[1..])
  }

  /** A '%' with fewer than two bytes after it is dropped. */
  function Decode(t: seq<bv8>): seq<bv8> {
    if t == [] then []
    else if t[0] == PERCENT then
      if |t| < 3 then Decode(t[1..]) else [Paired(t[1], t[2])] + Decode(t[3..])
    else [if t[0] == PLUS then SPACE else t[0]] + Decode(t[1..])
  }

  lemma HexBack(c: bv8)
    ensures Paired(High(c), Low(c)) == c && High(c) != 0 && Low(c) != 0
  {
  }

  lemma UnreservedIsPlain(c: bv8)
    requires Unreserved(c)
    ensures c != PERCENT && c != PLUS && c != SPACE && c != 0
  {
  }

  /** One encoded byte in front of anything decodes to that byte. */
  lemma DecodeOne(c: bv8, rest: seq<bv8>)
    ensures Decode(EncodeByte(c) + rest) == [c] + Decode(rest)
    ensures 1 <= |EncodeByte(c)| <= 3 && 0 !in EncodeByte(c)
  {
    hide Unreserved, Paired, High, Low;
    HexBack(c);
    var t := EncodeByte(c) + rest;
    if Unreserved(c) {
      UnreservedIsPlain(c);
      assert t[1..] == rest;
    } else if c == SPACE {
      assert t[1..] == rest;
    } else {
      assert t[3..] == rest;
    }
  }

  /** Whatever the bytes, decoding undoes encoding; encoding at most triples the length. */
  lemma {:induction false} DecodeEncode(s: seq<bv8>)
    ensures Decode(Encode(s)) == s
    ensures |s| <= |Encode(s)| <= 3 * |s| && 0 !in Encode(s)
  {
    if s != [] {
      hide EncodeByte, Decode;
      DecodeEncode(s[1..]);
      DecodeOne(s[0], Encode(s[1..]));
    } else {
      assert Decode([]) == [];
    }
  }

  lemma {:induction false} DecodeShrinks(t: seq<bv8>)
    ensures |Decode(t)| <= |t|
    decreases |t|
  {
    if t != [] {
      DecodeShrinks(t[1..]);
      if |t| >= 3 {
        DecodeShrinks(t[3..]);
      }
    }
  }

  // ---- Which strings are encodings ------------------------------------------------------

  predicate LowerHex(c: bv8) { 48 <= c <= 57 || 97 <= c <= 102 }

  /** A byte that has to be escaped. */
  predicate Escaped(c: bv8) { c != 0 && c != SPACE && !Unreserved(c) }

  /** Unreserved characters, '+', and escapes of bytes that need one, in lower-case digits. */
  predicate Canonical(t: seq<bv8>) {
    if t == [] then true
    else if t[0] == PERCENT then
      |t| >= 3 && LowerHex(t[1]) && LowerHex(t[2]) && Escaped(Paired(t[1], t[2])) && Canonical(t[3..])
    else (t[0] == PLUS || Unreserved(t[0])) && Canonical(t[1..])
  }

  /** What a later reader sees of bytes that hold a null. */
  function Read(s: seq<bv8>): (r: seq<bv8>)
    ensures 0 !in r && (0 !in s ==> r == s)
  {
    if s == [] || s[0] == 0 then [] else [s[0]] + Read(s[1..])
  }

  lemma DigitsBack(x: bv8, y: bv8)
    requires LowerHex(x) && LowerHex(y)
    ensures High(Paired(x, y)) == x && Low(Paired(x, y)) == y
  {
  }

  lemma DigitsAreLower(c: bv8)
    ensures LowerHex(High(c)) && LowerHex(Low(c))
  {
  }

  lemma CanonicalOne(c: bv8, rest: seq<bv8>)
    requires c != 0
    ensures Canonical(EncodeByte(c) + rest) == Canonical(rest)
  {
    hide Unreserved, Paired, High, Low, LowerHex;
    HexBack(c);
    DigitsAreLower(c);
    var t := EncodeByte(c) + rest;
    if Unreserved(c) {
      UnreservedIsPlain(c);
      assert t[1..] == rest;
    } else if c == SPACE {
      assert t[1..] == rest;
    } else {
      assert t[3..] == rest;
    }
  }

  lemma {:induction false} EncodedIsCanonical(s: seq<bv8>)
    requires 0 !in s
    ensures Canonical(Encode(s))
  {
    if s != [] {
      hide EncodeByte, Canonical;
      EncodedIsCanonical(s[1..]);
      CanonicalOne(s[0], Encode(s[1..]));
    } else {
      assert Canonical([]);
    }
  }

  lemma {:induction false} CanonicalDecodes(t: seq<bv8>)
    requires Canonical(t)
    ensures 0 !in Decode(t) && Encode(Decode(t)) == t
    decreases |t|
  {
    if t != [] {
      hide Unreserved, Paired, High, Low, LowerHex;
      var n, c := if t[0] == PERCENT then 3 else 1, Decode(t)[0];
      CanonicalDecodes(t[n..]);
      assert Decode(t)[1..] == Decode(t[n..]);
      if t[0] == PERCENT {
        DigitsBack(t[1], t[2]);
      } else if t[0] == PLUS {
        SpaceIsReserved();
      } else {
        UnreservedIsPlain(t[0]);
      }
      assert EncodeByte(c) == t[..n];
      assert t == t[..n] + t[n..];
    }
  }

  lemma SpaceIsReserved()
    ensures !Unreserved(SPACE) && !Unreserved(0)
  {
  }

  /** Encoding what was decoded gives the string back precisely when the string was canonical. */
  lemma EncodeDecode(t: seq<bv8>)
    ensures Encode(Read(Decode(t))) == t <==> Canonical(t)
  {
    hide Encode, Decode, Canonical;
    var s := Decode(t);
    if Canonical(t) {
      CanonicalDecodes(t);
    }
    EncodedIsCanonical(Read(s));
  }

  // ---- The loops --------------------------------------------------------------------------

  lemma EncodeNext(s: seq<bv8>)
    ensures s == [] ==> Encode(s) == []
    ensures s != [] ==>
              Encode(s) == EncodeByte(s[0]) + Encode(s[1..])
              && EncodeByte(s[0]) == if Unreserved(s[0]) then [s[0]]
                                     else if s[0] == SPACE then [PLUS]
                                     else [PERCENT, High(s[0]), Low(s[0])]
  {
  }

  /** url_encode: a new buffer, sized for the worst case. */
  method UrlEncode(str: CString) returns (buf: array<bv8>)
    ensures fresh(buf) && buf.Length == 3 * |str| + 1
    ensures |Encode(str)| < buf.Length
    ensures buf[..|Encode(str)| + 1] == Encode(str) + [0]
  {
    hide Unreserved, High, Low, Encode, EncodeByte, Decode;
    buf := new bv8[3 * |str| + 1];
    var pstr, pbuf: nat := 0, 0;
    ghost var all := Encode(str);
    DecodeEncode(str);
    assert str[0..] == str;
    while CharAt(str, pstr) != 0
      invariant pstr <= |str| && pbuf <= 3 * pstr
      invariant all == buf[..pbuf] + Encode(str[pstr..])
      decreases |str| - pstr
    {
      var c := CharAt(str, pstr);
      ghost var done, rest := buf[..pbuf], str[pstr..];
      EncodeNext(rest);
      assert rest[1..] == str[pstr + 1..];
      ghost var tail := Encode(rest[1..]);
      assert all == done + EncodeByte(c) + tail;
      if Unreserved(c) {
        buf[pbuf] := c;
        pbuf := pbuf + 1;
        assert buf[..pbuf] == done + [c];
      } else if c == SPACE {
        buf[pbuf] := PLUS;
        pbuf := pbuf + 1;
        assert buf[..pbuf] == done + [PLUS];
      } else {
        var x, y := High(c), Low(c);
        buf[pbuf], buf[pbuf + 1], buf[pbuf + 2] := PERCENT, x, y;
        pbuf := pbuf + 3;
        assert buf[..pbuf] == done + [PERCENT, x, y];
      }
      pstr := pstr + 1;
    }
    assert str[pstr..] == [];
    EncodeNext([]);
    buf[pbuf] := 0;
  }

  lemma DecodeNext(t: CString)
    ensures t == [] ==> Decode(t) == []
    ensures t != [] && t[0] == PERCENT && |t| < 3 ==> Decode(t) == Decode(t[1..])
    ensures t != [] && t[0] == PERCENT && |t| >= 3 ==> Decode(t) == [Paired(t[1], t[2])] + Decode(t[3..])
    ensures t != [] && t[0] == PLUS ==> Decode(t) == [SPACE] + Decode(t[1..])
    ensures t != [] && t[0] != PERCENT && t[0] != PLUS ==> Decode(t) == [t[0]] + Decode(t[1..])
  {
  }

  /** url_decode. */
  method UrlDecode(str: CString) returns (buf: array<bv8>)
    ensures fresh(buf) && buf.Length == |str| + 1
    ensures |Decode(str)| < buf.Length
    ensures buf[..|Decode(str)| + 1] == Decode(str) + [0]
  {
    hide FromHex, Decode;
    buf := new bv8[|str| + 1];
    var pstr, pbuf: nat := 0, 0;
    ghost var all := Decode(str);
    DecodeShrinks(str);
    assert str[0..] == str;
    while CharAt(str, pstr) != 0
      invariant pbuf <= pstr <= |str|
      invariant all == buf[..pbuf] + Decode(str[pstr..])
      decreases |str| - pstr
    {
      ghost var done, rest := buf[..pbuf], str[pstr..];
      DecodeNext(rest);
      if CharAt(str, pstr) == PERCENT {
        if CharAt(str, pstr + 1) != 0 && CharAt(str, pstr + 2) != 0 {
          buf[pbuf] := (FromHex(CharAt(str, pstr + 1)) << 4) | FromHex(CharAt(str, pstr + 2));
          assert buf[..pbuf + 1] == done + [Paired(rest[1], rest[2])];
          assert rest[3..] == str[pstr + 3..];
          pbuf := pbuf + 1;
          pstr := pstr + 2;
        } else {
          assert rest[1..] == str[pstr + 1..];
        }
      } else {
        assert rest[1..] == str[pstr + 1..];
        buf[pbuf] := if CharAt(str, pstr) == PLUS then SPACE else CharAt(str, pstr);
        assert buf[..pbuf + 1] == done + [buf[pbuf]];
        pbuf := pbuf + 1;
      }
      pstr := pstr + 1;
    }
    assert str[pstr..] == [];
    DecodeNext([]);
    buf[pbuf] := 0;
  }
}
