/** The alphabet of RFC 4648, section 4, and the test vectors of its section 10. */
module Base64Examples {
  import opened Base64Spec

  const UPPER: string := "ABCDEFGHIJKLMNOPQRSTUVWXYZ"
  const LOWER: string := "abcdefghijklmnopqrstuvwxyz"
  const OTHERS: string := "0123456789+/"
  const ALPHABET: string := UPPER + LOWER + OTHERS

  lemma UpperInOrder(v: nat)
    requires v < 26
    ensures |UPPER| == 26 && UPPER[v] as int == 'A' as int + v
  {
    if v < 13 {
      assert v == 0 || v == 1 || v == 2 || v == 3 || v == 4 || v == 5 || v == 6 || v == 7 || v == 8 || v == 9
          || v == 10 || v == 11 || v == 12;
    } else {
      assert v == 13 || v == 14 || v == 15 || v == 16 || v == 17 || v == 18 || v == 19 || v == 20 || v == 21
          || v == 22 || v == 23 || v == 24 || v == 25;
    }
  }

  lemma LowerInOrder(v: nat)
    requires v < 26
    ensures |LOWER| == 26 && LOWER[v] as int == 'a' as int + v
  {
    if v < 13 {
      assert v == 0 || v == 1 || v == 2 || v == 3 || v == 4 || v == 5 || v == 6 || v == 7 || v == 8 || v == 9
          || v == 10 || v == 11 || v == 12;
    } else {
      assert v == 13 || v == 14 || v == 15 || v == 16 || v == 17 || v == 18 || v == 19 || v == 20 || v == 21
          || v == 22 || v == 23 || v == 24 || v == 25;
    }
  }

  lemma OthersInOrder(v: nat)
    requires v < 12
    ensures |OTHERS| == 12 && OTHERS[v] == if v < 10 then ('0' as int + v) as char else if v == 10 then '+' else '/'
  {
    assert v == 0 || v == 1 || v == 2 || v == 3 || v == 4 || v == 5 || v == 6 || v == 7 || v == 8 || v == 9
        || v == 10 || v == 11;
  }

  lemma SymbolAsNumber(v: nat)
    requires v < 64
    ensures Symbol(v as bv8) as nat
         == if v < 26 then 65 + v else if v < 52 then 71 + v else if v < 62 then v - 4 else if v == 62 then 43 else 47
  {
  }

  /** The symbol of a value is the one at that place of the alphabet, and the pad is none of them. */
  lemma SymbolOfValue(v: nat)
    requires v < 64
    ensures |ALPHABET| == 64 && Symbol(v as bv8) as char == ALPHABET[v] && PAD as char == '='
  {
    hide Symbol;
    SymbolAsNumber(v);
    OthersInOrder(0);
    if v < 26 {
      UpperInOrder(v);
    } else if v < 52 {
      LowerInOrder(v - 26);
    } else {
      OthersInOrder(v - 52);
    }
  }

  /** A byte has a value if and only if it is in the alphabet, and its value is its place there. */
  lemma ValueOfSymbol(c: bv8, v: nat)
    ensures |ALPHABET| == 64
    ensures v < 64 ==> (Six(c) == v as bv8 <==> c as char == ALPHABET[v])
    ensures Six(c) == INVALID <==> c as char !in ALPHABET
  {
    SymbolOfValue(0);
    forall u: nat | u < 64 ensures c as char == ALPHABET[u] <==> Six(c) == u as bv8 {
      SymbolOfValue(u);
      ValueIff(c, u as bv8);
    }
    hide Six, Symbol;
    if Six(c) != INVALID {
      ValidAreSymbols(c);
      assert ALPHABET[Six(c) as nat] in ALPHABET;
    }
  }

  lemma ValueIff(c: bv8, v: bv8)
    requires v < 64
    ensures Six(c) == v <==> Symbol(v) == c
  {
  }

  /** The text that bytes spell. */
  function Text(b: seq<bv8>): (s: string)
    ensures |s| == |b|
  {
    seq(|b|, i requires 0 <= i < |b| => b[i] as char)
  }

  const FOOBAR: seq<bv8> := [0x66, 0x6F, 0x6F, 0x62, 0x61, 0x72]

  lemma Foo()
    ensures Encode([0x66, 0x6F, 0x6F]) == [0x5A, 0x6D, 0x39, 0x76] && Decode([0x5A, 0x6D, 0x39, 0x76]) == [0x66, 0x6F, 0x6F]
  {
  }

  lemma B()
    ensures Encode([0x62]) == [0x59, 0x67, 0x3D, 0x3D] && Decode([0x59, 0x67]) == [0x62]
  {
  }

  lemma Ba()
    ensures Encode([0x62, 0x61]) == [0x59, 0x6D, 0x45, 0x3D] && Decode([0x59, 0x6D, 0x45]) == [0x62, 0x61]
  {
  }

  lemma Bar()
    ensures Encode([0x62, 0x61, 0x72]) == [0x59, 0x6D, 0x46, 0x79] && Decode([0x59, 0x6D, 0x46, 0x79]) == [0x62, 0x61, 0x72]
  {
  }

  lemma F()
    ensures Encode([0x66]) == [0x5A, 0x67, 0x3D, 0x3D] && Decode([0x5A, 0x67]) == [0x66]
  {
  }

  lemma Fo()
    ensures Encode([0x66, 0x6F]) == [0x5A, 0x6D, 0x38, 0x3D] && Decode([0x5A, 0x6D, 0x38]) == [0x66, 0x6F]
  {
  }

  /** Encoding "f", "fo", "foo", "foob", "fooba" and "foobar", and decoding the symbols back. */
  lemma TestVectors()
    ensures Text(FOOBAR) == "foobar"
    ensures Encode([]) == [] && Decode([]) == []
    ensures Text(Encode(FOOBAR[..1])) == "Zg==" && Decode(Encode(FOOBAR[..1])[..2]) == FOOBAR[..1]
    ensures Text(Encode(FOOBAR[..2])) == "Zm8=" && Decode(Encode(FOOBAR[..2])[..3]) == FOOBAR[..2]
    ensures Text(Encode(FOOBAR[..3])) == "Zm9v" && Decode(Encode(FOOBAR[..3])) == FOOBAR[..3]
    ensures Text(Encode(FOOBAR[..4])) == "Zm9vYg==" && Decode(Encode(FOOBAR[..4])[..6]) == FOOBAR[..4]
    ensures Text(Encode(FOOBAR[..5])) == "Zm9vYmE=" && Decode(Encode(FOOBAR[..5])[..7]) == FOOBAR[..5]
    ensures Text(Encode(FOOBAR)) == "Zm9vYmFy" && Decode(Encode(FOOBAR)) == FOOBAR
  {
    hide Encode, Decode;
    F();
    Fo();
    Foo();
    B();
    Ba();
    Bar();
    Nothing();
    Longer([0x62], 2);
    Longer([0x62, 0x61], 3);
    Longer([0x62, 0x61, 0x72], 4);
    assert FOOBAR[..1] == [0x66] && FOOBAR[..2] == [0x66, 0x6F] && FOOBAR[..3] == [0x66, 0x6F, 0x6F];
    assert FOOBAR[..4] == FOOBAR[..3] + [0x62] && FOOBAR[..5] == FOOBAR[..3] + [0x62, 0x61];
    assert FOOBAR == FOOBAR[..3] + [0x62, 0x61, 0x72];
    assert Encode(FOOBAR[..1])[..2] == [0x5A, 0x67] && Encode(FOOBAR[..2])[..3] == [0x5A, 0x6D, 0x38];
    assert Encode([0x62])[..2] == [0x59, 0x67] && Encode([0x62, 0x61])[..3] == [0x59, 0x6D, 0x45];
    assert Encode([0x62, 0x61, 0x72])[..4] == [0x59, 0x6D, 0x46, 0x79] && Encode(FOOBAR)[..8] == Encode(FOOBAR);
  }

  lemma Nothing()
    ensures Encode([]) == [] && Decode([]) == []
  {
  }

  /** What follows "foo" is encoded by itself. */
  lemma Longer(rest: seq<bv8>, n: nat)
    requires n <= |Encode(rest)|
    ensures var t := Encode([0x66, 0x6F, 0x6F] + rest);
            && t == [0x5A, 0x6D, 0x39, 0x76] + Encode(rest)
            && Decode(t[..4 + n]) == [0x66, 0x6F, 0x6F] + Decode(Encode(rest)[..n])
  {
    hide Encode, Decode;
    Foo();
    EncodeSplits([0x66, 0x6F, 0x6F], rest);
    var t := Encode([0x66, 0x6F, 0x6F] + rest);
    assert t[..4 + n] == [0x5A, 0x6D, 0x39, 0x76] + Encode(rest)[..n];
    DecodeSplits([0x5A, 0x6D, 0x39, 0x76], Encode(rest)[..n]);
  }
}
