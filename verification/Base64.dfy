/** The encoder and decoder of lib/base64.c, working on byte buffers. */
module Base64 {
  import Spec = Base64Spec
  import opened Base64Spec

  /** The room Base64encode needs, the null included. */
  function EncodeLen(len: nat): nat { (len + 2) / 3 * 4 + 1 }

  /** The expressions of the encoder. */
  function First(a: bv8): bv8 { (a >> 2) & 0x3F }

  function Second(a: bv8, b: bv8): bv8 { ((a & 0x3) << 4) | ((b & 0xF0) >> 4) }

  function Third(b: bv8, c: bv8): bv8 { ((b & 0xF) << 2) | ((c & 0xC0) >> 6) }

  function Fourth(c: bv8): bv8 { c & 0x3F }

  function SecondAlone(a: bv8): bv8 { (a & 0x3) << 4 }

  function ThirdAlone(b: bv8): bv8 { (b & 0xF) << 2 }

  /** Its shifts and masks pick the four values of a group. */
  lemma FirstSix(a: bv8, b: bv8, c: bv8)
    ensures First(a) == SixOf(Group(a, b, c), 0)
  {
  }

  lemma SecondSix(a: bv8, b: bv8, c: bv8)
    ensures Second(a, b) == SixOf(Group(a, b, c), 1) && SecondAlone(a) == SixOf(Group(a, 0, 0), 1)
  {
  }

  lemma ThirdSix(a: bv8, b: bv8, c: bv8)
    ensures Third(b, c) == SixOf(Group(a, b, c), 2) && ThirdAlone(b) == SixOf(Group(a, b, 0), 2)
  {
  }

  lemma FourthSix(a: bv8, b: bv8, c: bv8)
    ensures Fourth(c) == SixOf(Group(a, b, c), 3)
  {
  }

  /** The symbols as the code computes them, for the group that s starts with. */
  function Picked(s: seq<bv8>): seq<bv8>
    requires s != []
  {
    if |s| == 1 then [Symbol(First(s[0])), Symbol(SecondAlone(s[0])), PAD, PAD]
    else if |s| == 2 then [Symbol(First(s[0])), Symbol(Second(s[0], s[1])), Symbol(ThirdAlone(s[1])), PAD]
    else [Symbol(First(s[0])), Symbol(Second(s[0], s[1])), Symbol(Third(s[1], s[2])), Symbol(Fourth(s[2]))]
  }

  lemma PickedGroup(s: seq<bv8>)
    requires s != []
    ensures Spec.Encode(s) == Picked(s) + Spec.Encode(if |s| <= 3 then [] else s[3..])
  {
    hide SixOf, Group, Symbol, First, Second, Third, Fourth, SecondAlone, ThirdAlone;
    var b, c := if |s| > 1 then s[1] else 0, if |s| > 2 then s[2] else 0;
    FirstSix(s[0], b, c);
    SecondSix(s[0], b, c);
    ThirdSix(s[0], b, c);
    FourthSix(s[0], b, c);
    assert |s| == 3 ==> s[3..] == [];
  }

  /** The same for a group in the middle of s. */
  lemma PickedAt(s: seq<bv8>, i: nat)
    requires i < |s|
    ensures i + 2 < |s| ==>
              Spec.Encode(s[i..])
              == [Symbol(First(s[i])), Symbol(Second(s[i], s[i + 1])),
                  Symbol(Third(s[i + 1], s[i + 2])), Symbol(Fourth(s[i + 2]))]
                 + Spec.Encode(s[i + 3..])
    ensures i + 2 == |s| ==>
              Spec.Encode(s[i..])
              == [Symbol(First(s[i])), Symbol(Second(s[i], s[i + 1])), Symbol(ThirdAlone(s[i + 1])), PAD]
    ensures i + 1 == |s| ==> Spec.Encode(s[i..]) == [Symbol(First(s[i])), Symbol(SecondAlone(s[i])), PAD, PAD]
  {
    hide Symbol, Spec.Encode, First, Second, Third, Fourth, SecondAlone, ThirdAlone;
    PickedGroup(s[i..]);
    NothingEncoded();
    assert i + 3 <= |s| ==> s[i..][3..] == s[i + 3..];
    assert i + 3 == |s| ==> s[i + 3..] == [];
  }

  /** The three expressions of the decoder. */
  function Upper(a: bv8, b: bv8): bv8 { (a << 2) | (b >> 4) }

  function Middle(b: bv8, c: bv8): bv8 { (b << 4) | (c >> 2) }

  function Lower(c: bv8, d: bv8): bv8 { (c << 6) | d }

  /** The shifts of the decoder put a group's bytes together; each needs no more than two of the values. */
  lemma PickedBytes(a: bv8, b: bv8, c: bv8, d: bv8)
    requires a < 64 && b < 64 && c < 64 && d < 64
    ensures var g := Joined(a, b, c, d);
            Upper(a, b) == ByteOf(g, 0) && Middle(b, c) == ByteOf(g, 1) && Lower(c, d) == ByteOf(g, 2)
  {
  }

  /** Four times *p++. */
  method Emit(encoded: array<bv8>, p: nat, w: bv8, x: bv8, y: bv8, z: bv8)
    requires p + 4 <= encoded.Length
    modifies encoded
    ensures encoded[..p + 4] == old(encoded[..p]) + [w, x, y, z]
    ensures forall k | p + 4 <= k < encoded.Length :: encoded[k] == old(encoded[k])
  {
    encoded[p], encoded[p + 1], encoded[p + 2], encoded[p + 3] := w, x, y, z;
  }

  /** Base64encode: returns how many bytes it wrote, the null included. */
  method Encode(encoded: array<bv8>, plain: array<bv8>, len: nat) returns (n: nat)
    requires len <= plain.Length && EncodeLen(len) <= encoded.Length && encoded != plain
    modifies encoded
    ensures n == EncodeLen(len)
    ensures encoded[..n] == Spec.Encode(plain[..len]) + [0]
    ensures forall k | n <= k < encoded.Length :: encoded[k] == old(encoded[k])
  {
    hide Symbol, Spec.Encode, First, Second, Third, Fourth, SecondAlone, ThirdAlone;
    var i, p := 0, 0;
    ghost var s, was := plain[..len], encoded[..];
    ghost var all, left := Spec.Encode(s), Spec.Encode(s);
    EncodedLength(s);
    NothingEncoded();
    assert s[0..] == s;
    while i < len - 2
      invariant i <= len && left == Spec.Encode(s[i..])
      invariant p + |left| == |all| && all == encoded[..p] + left
      invariant forall k | p <= k < encoded.Length :: encoded[k] == was[k]
    {
      PickedAt(s, i);
      left := Spec.Encode(s[i + 3..]);
      Emit(encoded, p, Symbol(First(plain[i])), Symbol(Second(plain[i], plain[i + 1])),
           Symbol(Third(plain[i + 1], plain[i + 2])), Symbol(Fourth(plain[i + 2])));
      i, p := i + 3, p + 4;
    }
    if i < len {
      PickedAt(s, i);
      if i == len - 1 {
        Emit(encoded, p, Symbol(First(plain[i])), Symbol(SecondAlone(plain[i])), PAD, PAD);
      } else {
        Emit(encoded, p, Symbol(First(plain[i])), Symbol(Second(plain[i], plain[i + 1])),
             Symbol(ThirdAlone(plain[i + 1])), PAD);
      }
      p := p + 4;
      left := [];
    } else {
      assert s[i..] == [];
    }
    assert encoded[..p] == all;
    encoded[p] := 0;
    n := p + 1;
  }

  lemma NothingEncoded()
    ensures Spec.Encode([]) == []
  {
  }

  /** The room Base64decode_len asks for n symbols, the null included. */
  function DecodeLen(n: nat): nat { (n + 3) / 4 * 3 + 1 }

  lemma {:induction false} DecodedLength(t: seq<bv8>)
    ensures |Spec.Decode(t)| == (|t| + 3) / 4 * 3 - (4 - |t| % 4) % 4
    ensures |Spec.Decode(t)| < DecodeLen(|t|) <= |Spec.Decode(t)| + 4
  {
    hide Six, Joined, ByteOf;
    if |t| >= 4 {
      DecodedLength(t[4..]);
      FourFewer(|t|);
    }
  }

  lemma FourFewer(n: nat)
    requires n >= 4
    ensures (n + 3) / 4 == (n - 4 + 3) / 4 + 1 && n % 4 == (n - 4) % 4
  {
  }

  /** Whether some byte of a buffer ends its symbols, as a null does. */
  predicate Terminated(u: seq<bv8>) { Prefix(u) != u }

  /** The scan both decoding functions start with: how many symbols there are before anything else. */
  method Scan(coded: array<bv8>) returns (n: nat)
    requires Terminated(coded[..])
    ensures n == |Prefix(coded[..])| < coded.Length
  {
    ghost var u := coded[..];
    WherePrefixEnds(u);
    var bufin := 0;
    while Six(coded[bufin]) <= 63
      invariant bufin <= |Prefix(u)|
      decreases coded.Length - bufin
    {
      bufin := bufin + 1;
    }
    n := bufin;
  }

  lemma WherePrefixEnds(u: seq<bv8>)
    requires Terminated(u)
    ensures |Prefix(u)| < |u|
    ensures forall k | 0 <= k < |u| :: k < |Prefix(u)| ==> Six(u[k]) <= 63
    ensures Six(u[|Prefix(u)|]) > 63
  {
    var t := Prefix(u);
    assert t != u;
    forall k: nat | k < |t| ensures Six(u[k]) <= 63 {
      assert u[k] == t[k];
      ValidAreSymbols(t[k]);
    }
  }

  /** Base64decode_len. */
  method ComputeDecodeLen(coded: array<bv8>) returns (n: nat)
    requires Terminated(coded[..])
    ensures n == DecodeLen(|Prefix(coded[..])|) > |Spec.Decode(Prefix(coded[..]))|
  {
    var nprbytes := Scan(coded);
    DecodedLength(Prefix(coded[..]));
    n := (nprbytes + 3) / 4 * 3 + 1;
  }

  /** The bytes of up to four symbols, as the code computes them. */
  lemma DecodedBytes(t: seq<bv8>)
    requires AllSymbols(t) && |t| <= 4
    ensures |Spec.Decode(t)| == if |t| > 1 then |t| - 1 else 0
    ensures |t| > 1 ==> Spec.Decode(t)[0] == Upper(Six(t[0]), Six(t[1]))
    ensures |t| > 2 ==> Spec.Decode(t)[1] == Middle(Six(t[1]), Six(t[2]))
    ensures |t| > 3 ==> Spec.Decode(t)[2] == Lower(Six(t[2]), Six(t[3]))
  {
    hide Six, Joined, ByteOf, Upper, Middle, Lower;
    forall i: nat | i < |t| ensures Six(t[i]) < 64 {
      ValidAreSymbols(t[i]);
    }
    if |t| > 1 {
      PickedBytes(Six(t[0]), Six(t[1]), if |t| > 2 then Six(t[2]) else 0, if |t| > 3 then Six(t[3]) else 0);
    }
  }

  /** The body of the decoding loop, and with fewer than four symbols left the statements after it. Each byte is
    * written before the next symbol is read, so a string may be decoded where it lies. */
  method DecodeGroup(plain: array<bv8>, o: nat, coded: array<bv8>, i: nat, left: nat) returns (m: nat)
    requires left <= 4 && i + left <= coded.Length && o + left <= plain.Length + 1 && o <= plain.Length
    requires AllSymbols(coded[i..i + left])
    requires plain == coded ==> o <= i
    modifies plain
    ensures m == |Spec.Decode(old(coded[i..i + left]))| && o + m <= plain.Length
    ensures forall k | o <= k < o + m :: plain[k] == Spec.Decode(old(coded[i..i + left]))[k - o]
    ensures forall k | 0 <= k < plain.Length && !(o <= k < o + m) :: plain[k] == old(plain[k])
  {
    DecodedBytes(coded[i..i + left]);
    hide Six, Spec.Decode, Upper, Middle, Lower, AllSymbols;
    m := 0;
    if left > 1 {
      plain[o] := Upper(Six(coded[i]), Six(coded[i + 1]));
      m := 1;
    }
    if left > 2 {
      plain[o + 1] := Middle(Six(coded[i + 1]), Six(coded[i + 2]));
      m := 2;
    }
    if left > 3 {
      plain[o + 2] := Lower(Six(coded[i + 2]), Six(coded[i + 3]));
      m := 3;
    }
  }

  lemma SymbolsWithin(t: seq<bv8>, i: nat, j: nat)
    requires AllSymbols(t) && i <= j <= |t|
    ensures AllSymbols(t[i..j])
  {
  }

  /** Halfway through: `now` holds the first o bytes of `all`, whose rest is still to be decoded. */
  ghost predicate Halfway(now: seq<bv8>, was: seq<bv8>, o: nat, all: seq<bv8>, rest: seq<bv8>) {
    && |now| == |was| && o + |rest| == |all| <= |now| && all == now[..o] + rest
    && forall k | o <= k < |now| :: now[k] == was[k]
  }

  lemma OneGroupFurther(now: seq<bv8>, after: seq<bv8>, was: seq<bv8>, o: nat, all: seq<bv8>, group: seq<bv8>, rest: seq<bv8>)
    requires Halfway(now, was, o, all, group + rest)
    requires |after| == |now| && forall k | o <= k < o + |group| :: after[k] == group[k - o]
    requires forall k | 0 <= k < |now| && !(o <= k < o + |group|) :: after[k] == now[k]
    ensures Halfway(after, was, o + |group|, all, rest)
  {
    assert after[..o + |group|] == now[..o] + group;
  }

  /** One group of symbols further: four of the symbols t, or all that are left. */
  method DecodeNext(plain: array<bv8>, o: nat, coded: array<bv8>, i: nat, size: nat,
                    ghost t: seq<bv8>, ghost was: seq<bv8>, ghost all: seq<bv8>)
    returns (m: nat)
    requires size <= 4 && o <= i && i + size <= |t| <= coded.Length && (size == 4 || i + size == |t|)
    requires AllSymbols(t) && forall k | i <= k < |t| :: coded[k] == t[k]
    requires Halfway(plain[..], was, o, all, Spec.Decode(t[i..]))
    modifies plain
    ensures m <= size && Halfway(plain[..], was, o + m, all, Spec.Decode(t[i + size..]))
    ensures forall k | i + size <= k < |t| :: coded[k] == t[k]
  {
    hide Six, Spec.Decode, AllSymbols, Halfway;
    ghost var now, group, rest := plain[..], t[i..i + size], t[i + size..];
    SameSymbols(coded[..], t, i, size);
    SplitDecode(t[i..], size);
    SymbolsWithin(t, i, i + size);
    Room(now, was, o, all, Spec.Decode(t[i..]));
    DecodedLength(group);
    m := DecodeGroup(plain, o, coded, i, size);
    OneGroupFurther(now, plain[..], was, o, all, Spec.Decode(group), Spec.Decode(rest));
  }

  /** The decoding itself: t is the symbols, and `left` in the end how many were left for the last group. */
  method DecodeSymbols(plain: array<bv8>, coded: array<bv8>, nprbytes: nat, ghost t: seq<bv8>)
    returns (bufout: nat, left: nat)
    requires nprbytes == |t| <= coded.Length && t == coded[..|t|] && AllSymbols(t)
    requires |Spec.Decode(t)| <= plain.Length
    modifies plain
    ensures bufout == |Spec.Decode(t)| && plain[..bufout] == Spec.Decode(t)
    ensures left <= 4 && left <= nprbytes && (nprbytes - left) % 4 == 0
    ensures forall k | bufout <= k < plain.Length :: plain[k] == old(plain[k])
  {
    hide Six, Spec.Decode, Prefix, DecodeLen, AllSymbols, Halfway;
    ghost var was, all := plain[..], Spec.Decode(t);
    var bufin: nat := 0;
    left, bufout := nprbytes, 0;
    assert t[0..] == t;
    NothingDecoded(was, all);
    while left > 4
      invariant left == |t| - bufin && bufin % 4 == 0 && bufin <= |t|
      invariant bufout <= bufin && Halfway(plain[..], was, bufout, all, Spec.Decode(t[bufin..]))
      invariant forall k | bufin <= k < |t| :: coded[k] == t[k]
    {
      var m := DecodeNext(plain, bufout, coded, bufin, 4, t, was, all);
      bufin, bufout, left := bufin + 4, bufout + m, left - 4;
    }
    var m := DecodeNext(plain, bufout, coded, bufin, left, t, was, all);
    bufout := bufout + m;
    AllDecoded(plain[..], was, bufout, all, t);
  }

  lemma SameSymbols(u: seq<bv8>, t: seq<bv8>, i: nat, n: nat)
    requires i + n <= |t| <= |u| && forall k | i <= k < |t| :: u[k] == t[k]
    ensures u[i..i + n] == t[i..i + n] == t[i..][..n] && t[i..][n..] == t[i + n..]
    ensures i + n == |t| ==> t[i..i + n] == t[i..]
  {
  }

  lemma NothingDecoded(was: seq<bv8>, all: seq<bv8>)
    requires |all| <= |was|
    ensures Halfway(was, was, 0, all, all)
  {
  }

  lemma Room(now: seq<bv8>, was: seq<bv8>, o: nat, all: seq<bv8>, rest: seq<bv8>)
    requires Halfway(now, was, o, all, rest)
    ensures o + |rest| <= |now|
  {
  }

  lemma AllDecoded(now: seq<bv8>, was: seq<bv8>, o: nat, all: seq<bv8>, t: seq<bv8>)
    requires Halfway(now, was, o, all, Spec.Decode(t[|t|..]))
    ensures o == |all| <= |now| == |was| && now[..o] == all && forall k | o <= k < |now| :: now[k] == was[k]
  {
    assert t[|t|..] == [];
  }

  /** Base64decode: returns how many bytes it wrote, the null after them not counted. */
  method Decode(plain: array<bv8>, coded: array<bv8>) returns (n: nat)
    requires Terminated(coded[..]) && DecodeLen(|Prefix(coded[..])|) <= plain.Length
    modifies plain
    ensures n == |Spec.Decode(Prefix(old(coded[..])))| < plain.Length
    ensures plain[..n + 1] == Spec.Decode(Prefix(old(coded[..]))) + [0]
    ensures forall k | n < k < plain.Length :: plain[k] == old(plain[k])
  {
    ghost var t := Prefix(coded[..]);
    DecodedLength(t);
    hide Six, Spec.Decode, Prefix, AllSymbols;
    var nprbytes := Scan(coded);
    var nbytesdecoded := (nprbytes + 3) / 4 * 3;
    var bufout, left := DecodeSymbols(plain, coded, nprbytes, t);
    plain[bufout] := 0;
    SameRemainder(nprbytes, nprbytes - left);
    n := nbytesdecoded - (4 - left) % 4;
  }

  lemma SameRemainder(n: nat, i: nat)
    requires i % 4 == 0 && i <= n
    ensures (4 - (n - i)) % 4 == (4 - n % 4) % 4
  {
  }

  lemma SplitDecode(t: seq<bv8>, n: nat)
    requires n <= |t| && (n == 4 || n == |t| < 4)
    ensures Spec.Decode(t) == Spec.Decode(t[..n]) + Spec.Decode(t[n..])
  {
    assert t == t[..n] + t[n..];
    if n == 4 {
      hide Spec.Decode;
      DecodeSplits(t[..n], t[n..]);
    } else {
      assert t[..n] == t && t[n..] == [];
    }
  }
}
