/** What SHA1_Update leaves of the caller's data: whole blocks are hashed where they lie and not put back. */
module Sha1Remains {
  import opened Sha1Spec
  import opened Sha1Block

  /** Memory once n blocks from lo on were hashed in place. */
  function Hashed(was: seq<bv8>, lo: nat, n: nat): (r: seq<bv8>)
    requires lo + 64 * n <= |was|
    ensures |r| == |was| && r[..lo] == was[..lo] && r[lo + 64 * n..] == was[lo + 64 * n..]
  {
    if n == 0 then was
    else
      var i := lo + 64 * (n - 1);
      var before := Hashed(was, lo, n - 1);
      assert before[i + 64..] == before[i..][64..] && was[i + 64..] == was[i..][64..];
      assert before[..lo] == before[..i][..lo];
      before[..i] + Residue(was[i..i + 64]) + was[i + 64..]
  }

  /** The bytes of a piece, and of what lies behind it, after SHA1_Update has absorbed len of them behind n others. */
  function Remains(was: seq<bv8>, n: nat, len: nat): (r: seq<bv8>)
    requires len <= |was|
    ensures |r| == |was|
  {
    var j := n % 64;
    if j + len < 64 then was else Hashed(was, 64 - j, (j + len) / 64 - 1)
  }

  lemma HashedOneMore(now: seq<bv8>, mid: seq<bv8>, was: seq<bv8>, lo: nat, n: nat)
    requires lo + 64 * (n + 1) <= |was| && mid == Hashed(was, lo, n) && OnlyBlock(now, mid, lo + 64 * n)
    requires now[lo + 64 * n..lo + 64 * n + 64] == Residue(mid[lo + 64 * n..lo + 64 * n + 64])
    ensures now == Hashed(was, lo, n + 1)
  {
    hide Residue;
    var i := lo + 64 * n;
    assert mid[i..i + 64] == mid[i..][..64] == was[i..][..64] == was[i..i + 64];
    assert mid[i + 64..] == mid[i..][64..] == was[i..][64..] == was[i + 64..];
    assert now == now[..i] + now[i..i + 64] + now[i + 64..];
  }

  // ---- When the data is left alone ----------------------------------------------------------

  /** The schedule of a block whose bits are all alike: shifting changes nothing, so each word is all ones or
    * all zeros. */
  predicate AllOnes(t: nat) {
    if t < 16 then true else (AllOnes(t - 3) != AllOnes(t - 8)) != (AllOnes(t - 14) != AllOnes(t - 16))
  }

  lemma {:induction false} OnesSchedule(m: seq<bv8>, t: nat)
    requires |m| == 64 && forall k | 0 <= k < 64 :: m[k] == 0xFF
    ensures W(m, t) == if AllOnes(t) then 0xFFFF_FFFF else 0
  {
    if t < 16 {
      assert m[4 * t] == 0xFF && m[4 * t + 1] == 0xFF && m[4 * t + 2] == 0xFF && m[4 * t + 3] == 0xFF;
    } else {
      OnesSchedule(m, t - 3);
      OnesSchedule(m, t - 8);
      OnesSchedule(m, t - 14);
      OnesSchedule(m, t - 16);
    }
  }

  /** A block of ones does not survive: schedule word 64 is zero. */
  lemma OnesAreLost(m: seq<bv8>)
    requires |m| == 64 && forall k | 0 <= k < 64 :: m[k] == 0xFF
    ensures Residue(m)[0] == 0
  {
    OnesSchedule(m, 64);
    assert !AllOnes(64);
  }

  lemma {:induction false} ZeroSchedule(m: seq<bv8>, t: nat)
    requires |m| == 64 && forall k | 0 <= k < 64 :: m[k] == 0
    ensures W(m, t) == 0
  {
    if t < 16 {
      assert m[4 * t] == 0 && m[4 * t + 1] == 0 && m[4 * t + 2] == 0 && m[4 * t + 3] == 0;
    } else {
      ZeroSchedule(m, t - 3);
      ZeroSchedule(m, t - 8);
      ZeroSchedule(m, t - 14);
      ZeroSchedule(m, t - 16);
    }
  }

  /** A block of zeros does survive: whether data is changed depends on what it holds. */
  lemma ZerosSurvive(m: seq<bv8>)
    requires |m| == 64 && forall k | 0 <= k < 64 :: m[k] == 0
    ensures Residue(m) == m
  {
    forall k: nat | k < 64 ensures StoredByte(W(m, 64 + k / 4), k % 4) == 0 {
      ZeroSchedule(m, 64 + k / 4);
    }
  }

  lemma {:induction false} FirstBlockHashed(was: seq<bv8>, lo: nat, n: nat)
    requires n > 0 && lo + 64 * n <= |was|
    ensures Hashed(was, lo, n)[lo] == Residue(was[lo..lo + 64])[0]
  {
    hide Residue;
    if n > 1 {
      FirstBlockHashed(was, lo, n - 1);
      var i := lo + 64 * (n - 1);
      assert Hashed(was, lo, n)[..i] == Hashed(was, lo, n - 1)[..i];
    }
  }

  lemma LeftAlone(was: seq<bv8>, n: nat, len: nat)
    requires len <= |was| && n % 64 + len < 128
    ensures Remains(was, n, len) == was
  {
  }

  lemma FirstBlockRemains(was: seq<bv8>, n: nat, len: nat)
    requires len <= |was| && n % 64 + len >= 128
    ensures var lo := 64 - n % 64;
            lo + 64 <= len && Remains(was, n, len)[lo] == Residue(was[lo..lo + 64])[0]
  {
    hide Residue, Hashed;
    FirstBlockHashed(was, 64 - n % 64, (n % 64 + len) / 64 - 1);
  }

  lemma Overwritten(n: nat, len: nat) returns (was: seq<bv8>)
    requires n % 64 + len >= 128
    ensures |was| == len && Remains(was, n, len) != was
  {
    hide Residue, Remains, W;
    was := seq(len, _ => 0xFF);
    var lo := 64 - n % 64;
    FirstBlockRemains(was, n, len);
    OnesAreLost(was[lo..lo + 64]);
    assert Remains(was, n, len)[lo] == 0 != was[lo];
  }

  /** Data is left alone whatever it holds if and only if no whole block lies in it behind what fills up the
    * buffer: the promise of the const parameter holds under this condition, and only then. */
  lemma LeftAloneIff(n: nat, len: nat)
    ensures (forall was: seq<bv8> | len <= |was| :: Remains(was, n, len) == was) <==> n % 64 + len < 128
  {
    hide Remains;
    if n % 64 + len < 128 {
      forall was: seq<bv8> | len <= |was| ensures Remains(was, n, len) == was {
        LeftAlone(was, n, len);
      }
    } else {
      var was := Overwritten(n, len);
    }
  }
}
