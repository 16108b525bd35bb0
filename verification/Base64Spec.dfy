/** The base 64 encoding of RFC 4648, section 4: each 24-bit group of input is four 6-bit symbols of output. */
module Base64Spec {

  const PAD: bv8 := 61
  const INVALID: bv8 := 64

  /** Table 1: the symbol of a 6-bit value. */
  function Symbol(v: bv8): bv8 {
    if v < 26 then 65 + v
    else if v < 52 then 71 + v
    else if v < 62 then v - 4
    else if v == 62 then 43 else 47
  }

  /** The value of a symbol, or INVALID. */
  function Six(c: bv8): bv8 {
    if 65 <= c <= 90 then c - 65
    else if 97 <= c <= 122 then c - 71
    else if 48 <= c <= 57 then c + 4
    else if c == 43 then 62
    else if c == 47 then 63 else INVALID
  }

  lemma SymbolsAreValid(v: bv8)
    requires v < 64
    ensures Six(Symbol(v)) == v
  {
  }

  lemma ValidAreSymbols(c: bv8)
    requires Six(c) != INVALID
    ensures Six(c) < 64 && Symbol(Six(c)) == c
  {
  }

  /** Three bytes side by side. */
  function Group(a: bv8, b: bv8, c: bv8): bv24 { (a as bv24 << 16) | (b as bv24 << 8) | c as bv24 }

  function SixOf(g: bv24, k: nat): bv8
    requires k < 4
  {
    ((if k == 0 then g >> 18 else if k == 1 then g >> 12 else if k == 2 then g >> 6 else g) & 0x3F) as bv8
  }

  /** Four 6-bit values side by side. */
  function Joined(a: bv8, b: bv8, c: bv8, d: bv8): bv24 {
    (a as bv24 << 18) | (b as bv24 << 12) | (c as bv24 << 6) | d as bv24
  }

  function ByteOf(g: bv24, k: nat): bv8
    requires k < 3
  {
    ((if k == 0 then g >> 16 else if k == 1 then g >> 8 else g) & 0xFF) as bv8
  }

  /** The symbol at place k of a group. */
  function At(g: bv24, k: nat): bv8
    requires k < 4
  {
    Symbol(SixOf(g, k))
  }

  function Encode(s: seq<bv8>): seq<bv8> {
    if s == [] then []
    else if |s| == 1 then var g := Group(s[0], 0, 0); [At(g, 0), At(g, 1), PAD, PAD]
    else if |s| == 2 then var g := Group(s[0], s[1], 0); [At(g, 0), At(g, 1), At(g, 2), PAD]
    else var g := Group(s[0], s[1], s[2]); [At(g, 0), At(g, 1), At(g, 2), At(g, 3)] + Encode(s[3..])
  }

  predicate AllSymbols(t: seq<bv8>) { forall i | 0 <= i < |t| :: Six(t[i]) != INVALID }

  /** The bytes that whole octets of these symbols spell; a single symbol left over is ignored. */
  function Decode(t: seq<bv8>): seq<bv8> {
    if |t| <= 1 then []
    else if |t| == 2 then [ByteOf(Joined(Six(t[0]), Six(t[1]), 0, 0), 0)]
    else if |t| == 3 then
      var g := Joined(Six(t[0]), Six(t[1]), Six(t[2]), 0);
      [ByteOf(g, 0), ByteOf(g, 1)]
    else
      var g := Joined(Six(t[0]), Six(t[1]), Six(t[2]), Six(t[3]));
      [ByteOf(g, 0), ByteOf(g, 1), ByteOf(g, 2)] + Decode(t[4..])
  }

  /** The symbols a string starts with: decoding stops at the first byte that is not one. */
  function Prefix(u: seq<bv8>): (t: seq<bv8>)
    ensures t <= u && AllSymbols(t) && (t == u || Six(u[|t|]) == INVALID)
  {
    if u == [] || Six(u[0]) == INVALID then [] else [u[0]] + Prefix(u[1..])
  }

  lemma PrefixIs(t: seq<bv8>, u: seq<bv8>)
    requires AllSymbols(t) && (u == [] || Six(u[0]) == INVALID)
    ensures Prefix(t + u) == t
  {
    hide Prefix, Six;
    var w := t + u;
    var p := Prefix(w);
    assert |t| < |w| ==> w[|t|] == u[0];
    assert forall k: nat | k < |t| :: Six(w[k]) == Six(t[k]) != INVALID;
    assert forall k: nat | k < |p| :: Six(w[k]) == Six(p[k]) != INVALID;
    assert |p| == |t|;
  }

  function Pads(n: nat): seq<bv8> { seq(n, _ => PAD) }

  lemma SixBitsEach(g: bv24, k: nat)
    requires k < 4
    ensures SixOf(g, k) < 64
  {
  }

  lemma GroupSplits(a: bv8, b: bv8, c: bv8)
    ensures var g := Group(a, b, c);
            && Joined(SixOf(g, 0), SixOf(g, 1), SixOf(g, 2), SixOf(g, 3)) == g
            && ByteOf(g, 0) == a && ByteOf(g, 1) == b && ByteOf(g, 2) == c
  {
  }

  lemma ShortGroups(a: bv8, b: bv8)
    ensures SixOf(Group(a, b, 0), 3) == 0 && SixOf(Group(a, 0, 0), 2) == 0
  {
  }

  lemma JoinedSplits(a: bv8, b: bv8, c: bv8, d: bv8)
    requires a < 64 && b < 64 && c < 64 && d < 64
    ensures var g := Joined(a, b, c, d);
            && Group(ByteOf(g, 0), ByteOf(g, 1), ByteOf(g, 2)) == g
            && SixOf(g, 0) == a && SixOf(g, 1) == b && SixOf(g, 2) == c && SixOf(g, 3) == d
  {
  }

  /** The bits of the last value that a short group of r symbols keeps, and whether the others are zero. */
  function Trim(v: bv8, r: nat): bv8 { if r == 2 then v & 0x30 else v & 0x3C }

  predicate PadBitsZero(v: bv8, r: nat) { (if r == 2 then v & 0x0F else v & 0x03) == 0 }

  /** What is lost of the last symbol when its group is short. */
  lemma JoinedShort(a: bv8, b: bv8, c: bv8)
    requires a < 64 && b < 64 && c < 64
    ensures var g := Group(ByteOf(Joined(a, b, 0, 0), 0), 0, 0); SixOf(g, 0) == a && SixOf(g, 1) == Trim(b, 2)
    ensures var j := Joined(a, b, c, 0);
            var g := Group(ByteOf(j, 0), ByteOf(j, 1), 0);
            SixOf(g, 0) == a && SixOf(g, 1) == b && SixOf(g, 2) == Trim(c, 3)
  {
  }

  lemma AtIsSymbol(g: bv24, k: nat)
    requires k < 4
    ensures Six(At(g, k)) == SixOf(g, k) != INVALID
  {
    SixBitsEach(g, k);
    SymbolsAreValid(SixOf(g, k));
  }

  lemma {:induction false} EncodedLength(s: seq<bv8>)
    ensures |Encode(s)| == (|s| + 2) / 3 * 4
  {
    if |s| >= 3 {
      EncodedLength(s[3..]);
    }
  }

  /** The symbols of one group decode to its bytes, and to fewer when the group is short. */
  lemma GroupDecoded(a: bv8, b: bv8, c: bv8)
    ensures var g := Group(a, b, c);
            AllSymbols([At(g, 0), At(g, 1), At(g, 2), At(g, 3)]) && Decode([At(g, 0), At(g, 1), At(g, 2), At(g, 3)]) == [a, b, c]
    ensures var g := Group(a, b, 0); Decode([At(g, 0), At(g, 1), At(g, 2)]) == [a, b]
    ensures var g := Group(a, 0, 0); Decode([At(g, 0), At(g, 1)]) == [a]
  {
    hide At, Six, SixOf, ByteOf, Joined, Group;
    SymbolsOf(Group(a, b, c));
    SymbolsOf(Group(a, b, 0));
    SymbolsOf(Group(a, 0, 0));
    GroupSplits(a, b, c);
    GroupSplits(a, b, 0);
    GroupSplits(a, 0, 0);
    ShortGroups(a, b);
    ShortGroups(a, 0);
  }

  lemma SymbolsOf(g: bv24)
    ensures forall k: nat | k < 4 :: Six(At(g, k)) == SixOf(g, k) != INVALID
  {
    hide At, Six, SixOf;
    forall k: nat | k < 4 ensures Six(At(g, k)) == SixOf(g, k) != INVALID {
      AtIsSymbol(g, k);
    }
  }

  lemma SomeSymbols(a: seq<bv8>, n: nat, b: seq<bv8>)
    requires AllSymbols(a) && n <= |a|
    ensures AllSymbols(b) ==> AllSymbols(a[..n] + b)
    ensures AllSymbols([])
  {
  }

  /** One group, short or whole. */
  lemma GroupEncoded(s: seq<bv8>) returns (t: seq<bv8>)
    requires 1 <= |s| <= 3
    ensures |t| == |s| + 1 && AllSymbols(t) && Encode(s) == t + Pads(3 - |s|) && Decode(t) == s
  {
    hide At, Six, SixOf, ByteOf, Joined, Group, AllSymbols;
    var b, c := if |s| > 1 then s[1] else 0, if |s| > 2 then s[2] else 0;
    var g := Group(s[0], b, c);
    GroupDecoded(s[0], b, c);
    var all := [At(g, 0), At(g, 1), At(g, 2), At(g, 3)];
    t := all[..|s| + 1];
    SomeSymbols(all, |s| + 1, []);
    assert t + [] == t;
    if |s| == 1 {
      assert t == [At(g, 0), At(g, 1)] && Encode(s) == t + Pads(2);
    } else if |s| == 2 {
      assert t == [At(g, 0), At(g, 1), At(g, 2)] && Encode(s) == t + Pads(1);
    } else {
      assert t == all && s == [s[0], b, c] && Encode(s) == t + Pads(0);
    }
  }

  lemma NoPads()
    ensures Pads(0) == []
  {
  }

  lemma SamePads(n: nat)
    requires n >= 3
    ensures Pads((3 - (n - 3) % 3) % 3) == Pads((3 - n % 3) % 3)
  {
  }

  lemma EncodeSplits(h: seq<bv8>, rest: seq<bv8>)
    requires |h| == 3
    ensures Encode(h + rest) == Encode(h) + Encode(rest)
  {
    hide At, Group;
    var all, g := h + rest, Group(h[0], h[1], h[2]);
    var symbols := [At(g, 0), At(g, 1), At(g, 2), At(g, 3)];
    assert h[3..] == [] && all[3..] == rest;
    assert Encode(h) == symbols + [] == symbols;
    assert Encode(all) == symbols + Encode(rest);
  }

  lemma DecodeSplits(t: seq<bv8>, rest: seq<bv8>)
    requires |t| == 4
    ensures Decode(t + rest) == Decode(t) + Decode(rest) && |Decode(t)| == 3
  {
    hide Six, ByteOf, Joined;
    var all := t + rest;
    assert t[4..] == [] && all[4..] == rest;
    assert all[0] == t[0] && all[1] == t[1] && all[2] == t[2] && all[3] == t[3];
  }

  lemma GroupAndRest(h: seq<bv8>, tail: seq<bv8>, group: seq<bv8>, rest: seq<bv8>, p: seq<bv8>)
    requires |h| == 3 && |group| == 4 && AllSymbols(group) && AllSymbols(rest)
    requires Encode(h) == group + Pads(0) && Decode(group) == h
    requires Encode(tail) == rest + p && Decode(rest) == tail
    ensures var t := group + rest; AllSymbols(t) && Encode(h + tail) == t + p && Decode(t) == h + tail
  {
    EncodeSplits(h, tail);
    DecodeSplits(group, rest);
    SomeSymbols(group, 4, rest);
    NoPads();
    hide Encode, Decode, AllSymbols, Pads;
    Glued(Encode(h), Encode(tail), group, rest, p);
  }

  /** Encoding spells the bytes in symbols, then pads to a multiple of four; the symbols decode to the bytes. */
  lemma {:induction false} EncodedAndDecoded(s: seq<bv8>) returns (t: seq<bv8>)
    ensures AllSymbols(t) && Encode(s) == t + Pads((3 - |s| % 3) % 3) && Decode(t) == s
  {
    if s == [] {
      t := [];
    } else {
      hide Encode, Decode, AllSymbols, Pads;
      if |s| < 3 {
        t := GroupEncoded(s);
      } else {
        var h, tail := s[..3], s[3..];
        var group := GroupEncoded(h);
        var rest := EncodedAndDecoded(tail);
        t := group + rest;
        SamePads(|s|);
        GroupAndRest(h, tail, group, rest, Pads((3 - |s| % 3) % 3));
        Glued(h, tail, s, [], []);
      }
    }
  }

  lemma Glued(a: seq<bv8>, b: seq<bv8>, g: seq<bv8>, r: seq<bv8>, p: seq<bv8>)
    ensures a == g + [] && b == r + p ==> a + b == (g + r) + p
    ensures |g| >= 3 && a == g[..3] && b == g[3..] ==> a + b == g
    ensures |g| == 4 ==> g[..4] == g
  {
  }

  /** Section 4: padded to a multiple of four, no stray symbol; section 3.5: the pad bits are zero. */
  predicate Canonical(u: seq<bv8>) {
    var t := Prefix(u);
    var r := |t| % 4;
    && u == t + Pads((4 - r) % 4)
    && r != 1
    && (r >= 2 ==> PadBitsZero(Six(t[|t| - 1]), r))
  }

  /** Decoded symbols encoded again: whole groups come back, the last symbol of a short one loses its pad bits. */
  function Again(t: seq<bv8>): seq<bv8> {
    var n, r := |t| - 1, |t| % 4;
    if r == 0 then t
    else if r == 1 then t[..n]
    else t[..n] + [Symbol(Trim(Six(t[n]), r))] + Pads(4 - r)
  }

  lemma PairSymbols(t: seq<bv8>)
    requires AllSymbols(t) && |t| == 2
    ensures var g := Group(Decode(t)[0], 0, 0);
            At(g, 0) == t[0] && At(g, 1) == Symbol(Trim(Six(t[1]), 2))
  {
    hide Six, SixOf, ByteOf, Joined, Group, Symbol, Trim;
    ValidAreSymbols(t[0]);
    ValidAreSymbols(t[1]);
    JoinedShort(Six(t[0]), Six(t[1]), 0);
  }

  lemma TripleSymbols(t: seq<bv8>)
    requires AllSymbols(t) && |t| == 3
    ensures var g := Group(Decode(t)[0], Decode(t)[1], 0);
            At(g, 0) == t[0] && At(g, 1) == t[1] && At(g, 2) == Symbol(Trim(Six(t[2]), 3))
  {
    hide Six, SixOf, ByteOf, Joined, Group, Symbol, Trim;
    ValidAreSymbols(t[0]);
    ValidAreSymbols(t[1]);
    ValidAreSymbols(t[2]);
    JoinedShort(Six(t[0]), Six(t[1]), Six(t[2]));
  }

  lemma ShortAgain(t: seq<bv8>)
    requires AllSymbols(t) && 1 <= |t| <= 3
    ensures Encode(Decode(t)) == Again(t)
  {
    hide *;
    if |t| == 1 {
      SingleAgain(t);
    } else if |t| == 2 {
      PairAgain(t);
    } else {
      TripleAgain(t);
    }
  }

  lemma SingleAgain(t: seq<bv8>)
    requires |t| == 1
    ensures Encode(Decode(t)) == Again(t)
  {
  }

  lemma PairAgain(t: seq<bv8>)
    requires AllSymbols(t) && |t| == 2
    ensures Encode(Decode(t)) == Again(t)
  {
    hide Six, SixOf, ByteOf, Joined, Group, Symbol, Trim, At, AllSymbols;
    var last := Symbol(Trim(Six(t[1]), 2));
    PairSymbols(t);
    assert Encode(Decode(t)) == [t[0], last, PAD, PAD];
    assert Pads(2) == [PAD, PAD] && t[..1] == [t[0]];
    hide Encode, Decode, Pads;
    assert [t[0]] + [last] + [PAD, PAD] == [t[0], last, PAD, PAD];
  }

  lemma TripleAgain(t: seq<bv8>)
    requires AllSymbols(t) && |t| == 3
    ensures Encode(Decode(t)) == Again(t)
  {
    hide Six, SixOf, ByteOf, Joined, Group, Symbol, Trim, At, AllSymbols;
    var last := Symbol(Trim(Six(t[2]), 3));
    TripleSymbols(t);
    assert Encode(Decode(t)) == [t[0], t[1], last, PAD];
    assert Pads(1) == [PAD] && t[..2] == [t[0], t[1]];
    hide Encode, Decode, Pads;
    assert [t[0], t[1]] + [last] + [PAD] == [t[0], t[1], last, PAD];
  }

  lemma GroupSymbols(t: seq<bv8>)
    requires AllSymbols(t) && |t| == 4
    ensures |Decode(t)| == 3
    ensures var d := Decode(t);
            var g := Group(d[0], d[1], d[2]);
            t == [At(g, 0), At(g, 1), At(g, 2), At(g, 3)]
  {
    hide Six, SixOf, ByteOf, Joined, Group, Symbol;
    ValidAreSymbols(t[0]);
    ValidAreSymbols(t[1]);
    ValidAreSymbols(t[2]);
    ValidAreSymbols(t[3]);
    JoinedSplits(Six(t[0]), Six(t[1]), Six(t[2]), Six(t[3]));
  }

  /** A group of four symbols is three bytes and back. */
  lemma GroupAgain(t: seq<bv8>, rest: seq<bv8>)
    requires AllSymbols(t) && |t| == 4
    ensures Decode(t + rest) == Decode(t) + Decode(rest) && |Decode(t)| == 3
    ensures Encode(Decode(t) + rest) == t + Encode(rest)
  {
    hide Six, SixOf, ByteOf, Joined, Group, Symbol, At, AllSymbols;
    GroupSymbols(t);
    assert (t + rest)[4..] == rest;
    assert (Decode(t) + rest)[3..] == rest;
  }

  lemma {:induction false} DecodedAndEncoded(t: seq<bv8>)
    requires AllSymbols(t)
    ensures Encode(Decode(t)) == Again(t)
  {
    hide Six, SixOf, ByteOf, Joined, Group, Symbol;
    if 1 <= |t| <= 3 {
      ShortAgain(t);
    } else if |t| >= 4 {
      var head, rest := t[..4], t[4..];
      assert t == head + rest;
      DecodedAndEncoded(rest);
      GroupAgain(head, rest);
      GroupAgain(head, Decode(rest));
      AgainOfMore(head, rest);
    }
  }

  lemma AgainOfMore(head: seq<bv8>, rest: seq<bv8>)
    requires |head| == 4
    ensures Again(head + rest) == head + Again(rest)
  {
    hide Six, Symbol;
    var t := head + rest;
    assert |t| % 4 == |rest| % 4;
    if |rest| > 0 {
      assert t[..|t| - 1] == head + rest[..|rest| - 1];
    }
  }

  /** A symbol is its own short form when its pad bits are zero, and only then. */
  lemma LastSymbol(c: bv8, r: nat)
    requires Six(c) != INVALID
    ensures Symbol(Trim(Six(c), r)) == c <==> PadBitsZero(Six(c), r)
  {
    ValidAreSymbols(c);
    PadBits(Six(c));
    SymbolsAreValid(Trim(Six(c), r));
  }

  lemma PadBits(v: bv8)
    requires v < 64
    ensures v & 0x30 == v <==> v & 0x0F == 0
    ensures v & 0x3C == v <==> v & 0x03 == 0
    ensures v & 0x30 < 64 && v & 0x3C < 64
  {
  }

  /** Encoding what was decoded gives the string back precisely when it was canonical. */
  lemma CanonicalRoundTrip(u: seq<bv8>)
    ensures Encode(Decode(Prefix(u))) == u <==> Canonical(u)
  {
    hide Encode, Decode, Six, Symbol, Trim, PadBitsZero;
    var t := Prefix(u);
    DecodedAndEncoded(t);
    AgainIsWhole(t, u);
  }

  lemma AgainIsWhole(t: seq<bv8>, u: seq<bv8>)
    requires t <= u && AllSymbols(t)
    ensures var r := |t| % 4;
            Again(t) == u <==>
              u == t + Pads((4 - r) % 4) && r != 1 && (r >= 2 ==> PadBitsZero(Six(t[|t| - 1]), r))
  {
    hide Six, Symbol, Trim, PadBitsZero;
    var n, r := |t| - 1, |t| % 4;
    if r >= 2 {
      LastSymbol(t[n], r);
      var last, pads := Symbol(Trim(Six(t[n]), r)), Pads(4 - r);
      assert t == t[..n] + [t[n]];
      if Again(t) == u {
        assert u[n] == last;
      }
    }
  }

  /** What Base64encode wrote, its null included, Base64decode turns back into the bytes it was given. */
  lemma EncodeThenDecode(s: seq<bv8>)
    ensures Decode(Prefix(Encode(s) + [0])) == s && Canonical(Encode(s))
  {
    hide Encode, Decode, Prefix, Six;
    var t := EncodedAndDecoded(s);
    var pads := Pads((3 - |s| % 3) % 3);
    PaddingIsInvalid();
    assert t + pads + [0] == t + (pads + [0]);
    PrefixIs(t, pads + [0]);
    PrefixIs(t, pads);
    CanonicalRoundTrip(Encode(s));
  }

  lemma PaddingIsInvalid()
    ensures Six(PAD) == INVALID && Six(0) == INVALID
  {
  }
}
