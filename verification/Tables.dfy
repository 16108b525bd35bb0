/** The hash table of lib/dictionary.c as a value: buckets of associations, and the finite map they stand for. */
module Tables {
  import Lists
  import opened Tasks

  /** A C string: signed characters, none of them the terminator. */
  type Char = c: int | -0x80 <= c < 0x80 && c != 0 witness 1
  type Key = seq<Char>

  /** A key and what is stored under it; None is the null pointer. */
  datatype Association<V> = Association(key: Key, value: Option<V>)

  type Bucket<V> = seq<Association<V>>

  const U32: int := 0x1_0000_0000

  /** simple_hash: a 32-bit polynomial in 31 over signed characters. */
  function SimpleHash(key: Key): (h: nat)
    ensures h < U32
  {
    if key == [] then 0 else (key[|key| - 1] + 31 * SimpleHash(key[..|key| - 1])) % U32
  }

  function Power(n: nat): nat { if n == 0 then 1 else 31 * Power(n - 1) }

  /** The sum of the characters, each times the power of 31 that counts the characters behind it. */
  function Weighted(key: Key): int {
    if key == [] then 0 else key[0] * Power(|key| - 1) + Weighted(key[1..])
  }

  lemma {:induction false} WeightedOneMore(key: Key, c: Char)
    ensures Weighted(key + [c]) == 31 * Weighted(key) + c
  {
    if key == [] {
      assert key + [c] == [c] && [c][1..] == [];
    } else {
      WeightedOneMore(key[1..], c);
      assert (key + [c])[1..] == key[1..] + [c];
      assert key[0] * (31 * Power(|key| - 1)) == 31 * (key[0] * Power(|key| - 1));
    }
  }

  lemma SameRemainder(x: int, y: int, c: int)
    requires x == y % U32
    ensures (c + 31 * x) % U32 == (31 * y + c) % U32
  {
    var q := y / U32;
    assert 31 * y + c == c + 31 * x + 31 * q * U32;
  }

  /** The hash is that sum in 32 bits. */
  lemma {:induction false} HashIsWeighted(key: Key)
    ensures SimpleHash(key) == Weighted(key) % U32
  {
    if key != [] {
      var n := |key| - 1;
      HashIsWeighted(key[..n]);
      WeightedOneMore(key[..n], key[n]);
      assert key == key[..n] + [key[n]];
      SameRemainder(SimpleHash(key[..n]), Weighted(key[..n]), key[n]);
    }
  }

  function Hash(key: Key, cap: nat): (b: nat)
    requires cap > 0
    ensures b < cap
  {
    SimpleHash(key) % cap
  }

  // ---- One bucket -------------------------------------------------------------------------

  /** Where a key is, or the length of the bucket. */
  function IndexOf<V>(c: Bucket<V>, key: Key): (i: nat)
    ensures i <= |c| && (i < |c| ==> c[i].key == key)
    ensures forall j | 0 <= j < i :: c[j].key != key
  {
    if c == [] || c[0].key == key then 0 else 1 + IndexOf(c[1..], key)
  }

  function PutIn<V>(c: Bucket<V>, key: Key, value: Option<V>): Bucket<V> {
    var i := IndexOf(c, key);
    if i < |c| then c[i := Association(key, value)] else c + [Association(key, value)]
  }

  function RemoveFrom<V>(c: Bucket<V>, key: Key): Bucket<V> {
    var i := IndexOf(c, key);
    if i < |c| then Lists.Without(c, i) else c
  }

  predicate Distinct<V>(c: Bucket<V>) { forall i, j | 0 <= i < j < |c| :: c[i].key != c[j].key }

  function Stored<V>(c: Bucket<V>, key: Key): Option<Option<V>> {
    var i := IndexOf(c, key);
    if i < |c| then Some(c[i].value) else None
  }

  /** The first place a key is found is the only one. */
  lemma FoundAt<V>(c: Bucket<V>, key: Key, i: nat)
    requires i <= |c| && (i < |c| ==> c[i].key == key) && (forall j | 0 <= j < i :: c[j].key != key)
    ensures IndexOf(c, key) == i
  {
  }

  lemma PutInBucket<V>(c: Bucket<V>, key: Key, value: Option<V>, other: Key)
    requires Distinct(c)
    ensures var d := PutIn(c, key, value);
            && Distinct(d)
            && Stored(d, other) == (if other == key then Some(value) else Stored(c, other))
            && |d| == |c| + if Stored(c, key).None? then 1 else 0
  {
    var d, i := PutIn(c, key, value), IndexOf(c, key);
    FoundAt(d, key, i);
    if other != key {
      var j := IndexOf(c, other);
      FoundAt(d, other, if j == |c| then |d| else j);
    }
  }

  /** Where the associations of a bucket go when the one at i leaves. */
  function After(i: nat, k: nat): nat { if k < i then k else k + 1 }

  lemma WithoutAt<V>(c: Bucket<V>, i: nat)
    requires i < |c|
    ensures forall k: nat | k < |c| - 1 :: Lists.Without(c, i)[k] == c[After(i, k)]
  {
  }

  lemma RemovedAt<V>(c: Bucket<V>, key: Key)
    ensures var d, i := RemoveFrom(c, key), IndexOf(c, key);
            && |d| == |c| - (if i < |c| then 1 else 0)
            && forall k: nat | k < |d| :: d[k] == c[After(i, k)]
  {
    hide IndexOf, Lists.Without;
    var i := IndexOf(c, key);
    if i < |c| {
      WithoutAt(c, i);
    }
  }

  lemma StillDistinct<V>(c: Bucket<V>, d: Bucket<V>, i: nat)
    requires Distinct(c) && |d| <= |c| && (i < |c| ==> |d| < |c|)
    requires forall k: nat | k < |d| :: d[k] == c[After(i, k)]
    ensures Distinct(d)
    ensures i < |c| ==> forall k: nat | k < |d| :: d[k].key != c[i].key
  {
    forall x: nat, y: nat | x < y < |d| ensures d[x].key != d[y].key {
      assert After(i, x) < After(i, y);
    }
  }

  lemma StoredAfterRemoval<V>(c: Bucket<V>, key: Key, other: Key)
    requires Distinct(c)
    ensures Stored(RemoveFrom(c, key), other) == if other == key then None else Stored(c, other)
  {
    hide RemoveFrom, IndexOf, Distinct;
    RemovedAt(c, key);
    var d, i := RemoveFrom(c, key), IndexOf(c, key);
    StillDistinct(c, d, i);
    if other == key {
      FoundAt(d, key, |d|);
    } else {
      var j := IndexOf(c, other);
      FoundAt(d, other, if j < i || i == |c| then j else j - 1);
    }
  }

  lemma RemoveFromBucket<V>(c: Bucket<V>, key: Key, other: Key)
    requires Distinct(c)
    ensures var d := RemoveFrom(c, key);
            && Distinct(d)
            && Stored(d, other) == (if other == key then None else Stored(c, other))
            && |d| == |c| - if Stored(c, key).Some? then 1 else 0
  {
    hide RemoveFrom, IndexOf, Distinct;
    RemovedAt(c, key);
    StillDistinct(c, RemoveFrom(c, key), IndexOf(c, key));
    StoredAfterRemoval(c, key, other);
  }

  // ---- The whole table --------------------------------------------------------------------

  type Table<V> = t: seq<Bucket<V>> | |t| > 0 witness [[]]

  /** Every association sits in the bucket its key hashes to, and no bucket holds a key twice. */
  predicate Placed<V>(t: Table<V>) {
    forall b: nat | b < |t| :: Distinct(t[b]) && forall i: nat | i < |t[b]| :: Hash(t[b][i].key, |t|) == b
  }

  function Empty<V>(cap: nat): (t: seq<Bucket<V>>)
    ensures |t| == cap
  {
    seq(cap, _ => [])
  }

  function Lookup<V>(t: Table<V>, key: Key): Option<Option<V>> { Stored(t[Hash(key, |t|)], key) }

  function Put<V>(t: Table<V>, key: Key, value: Option<V>): Table<V> {
    var b := Hash(key, |t|);
    t[b := PutIn(t[b], key, value)]
  }

  function Remove<V>(t: Table<V>, key: Key): Table<V> {
    var b := Hash(key, |t|);
    t[b := RemoveFrom(t[b], key)]
  }

  /** All associations, bucket after bucket. */
  function Entries<V>(t: seq<Bucket<V>>): Bucket<V> {
    if t == [] then [] else Entries(t[..|t| - 1]) + t[|t| - 1]
  }

  lemma {:induction false} EntriesOfOneChange<V>(t: seq<Bucket<V>>, b: nat, c: Bucket<V>)
    requires b < |t|
    ensures |Entries(t[b := c])| == |Entries(t)| - |t[b]| + |c|
  {
    var u, n := t[b := c], |t| - 1;
    if b < n {
      EntriesOfOneChange(t[..n], b, c);
      assert u[..n] == t[..n][b := c];
    } else {
      assert u[..n] == t[..n];
    }
  }

  /** dput refines map update, and counts a new key once. */
  lemma PutRefines<V>(t: Table<V>, key: Key, value: Option<V>, other: Key)
    requires Placed(t)
    ensures var u := Put(t, key, value);
            && Placed(u)
            && Lookup(u, other) == (if other == key then Some(value) else Lookup(t, other))
            && |Entries(u)| == |Entries(t)| + if Lookup(t, key).None? then 1 else 0
  {
    var b := Hash(key, |t|);
    PutInBucket(t[b], key, value, other);
    EntriesOfOneChange(t, b, PutIn(t[b], key, value));
  }

  lemma NewKeyGoesLast<V>(t: Table<V>, key: Key, value: Option<V>)
    requires Lookup(t, key).None?
    ensures var b := Hash(key, |t|); Put(t, key, value) == t[b := t[b] + [Association(key, value)]]
  {
  }

  /** Putting the key first and its value after is the same. */
  lemma PutAgain<V>(t: Table<V>, key: Key, value: Option<V>)
    ensures var b := Hash(key, |t|);
            var u := if Lookup(t, key).Some? then t else Put(t, key, None);
            && IndexOf(u[b], key) == IndexOf(t[b], key) < |u[b]|
            && u[b := u[b][IndexOf(t[b], key) := Association(key, value)]] == Put(t, key, value)
  {
    var b, a := Hash(key, |t|), Association(key, value);
    var c := t[b];
    var i := IndexOf(c, key);
    if i == |c| {
      var d := c + [Association(key, None)];
      FoundAt(d, key, i);
      assert d[i := a] == c + [a];
      assert t[b := d][b := c + [a]] == t[b := c + [a]];
    }
  }

  lemma SameKeys<V>(t: Table<V>, b: nat, i: nat, value: Option<V>)
    requires Placed(t) && b < |t| && i < |t[b]|
    ensures var u := t[b := t[b][i := t[b][i].(value := value)]];
            Placed(u) && |Entries(u)| == |Entries(t)|
  {
    EntriesOfOneChange(t, b, t[b][i := t[b][i].(value := value)]);
  }

  /** dremove refines map removal. */
  lemma RemoveRefines<V>(t: Table<V>, key: Key, other: Key)
    requires Placed(t)
    ensures var u := Remove(t, key);
            && Placed(u)
            && Lookup(u, other) == (if other == key then None else Lookup(t, other))
            && |Entries(u)| == |Entries(t)| - if Lookup(t, key).Some? then 1 else 0
  {
    var b := Hash(key, |t|);
    RemoveFromBucket(t[b], key, other);
    EntriesOfOneChange(t, b, RemoveFrom(t[b], key));
  }

  lemma EntriesOfOneMore<V>(t: seq<Bucket<V>>, b: nat)
    requires b < |t|
    ensures Entries(t[..b + 1]) == Entries(t[..b]) + t[b]
  {
    assert t[..b + 1][..b] == t[..b];
  }

  lemma KeyGoes<V>(t: Table<V>, key: Key)
    ensures var c := t[Hash(key, |t|)];
            var i := IndexOf(c, key);
            i < |c| ==>
              Lookup(t, key).Some? && Remove(t, key) == t[Hash(key, |t|) := Lists.Without(c, i)]
  {
  }

  lemma NothingToRemove<V>(t: Table<V>, key: Key)
    requires Lookup(t, key).None?
    ensures Remove(t, key) == t
  {
  }

  lemma {:induction false} EntriesByBucket<V>(t: seq<Bucket<V>>, cap: nat, a: Association<V>)
    requires cap > 0
    requires forall b: nat, i: nat | b < |t| && i < |t[b]| :: Hash(t[b][i].key, cap) == b
    ensures a in Entries(t) <==> Hash(a.key, cap) < |t| && a in t[Hash(a.key, cap)]
  {
    if t != [] {
      var n := |t| - 1;
      EntriesByBucket(t[..n], cap, a);
    }
  }

  lemma {:induction false} EntriesDistinct<V>(t: seq<Bucket<V>>, cap: nat)
    requires cap > 0
    requires forall b: nat | b < |t| :: Distinct(t[b]) && forall i: nat | i < |t[b]| :: Hash(t[b][i].key, cap) == b
    ensures Distinct(Entries(t))
  {
    if t != [] {
      var n := |t| - 1;
      EntriesDistinct(t[..n], cap);
      forall a | a in Entries(t[..n]) ensures Hash(a.key, cap) < n {
        EntriesByBucket(t[..n], cap, a);
      }
      var earlier, last := Entries(t[..n]), t[n];
      forall i, j | 0 <= i < |earlier| && 0 <= j < |last| ensures earlier[i].key != last[j].key {
        assert earlier[i] in earlier;
      }
    }
  }

  /** for_each_assoc: walking the buckets meets every association of the map, once. */
  /** The entries are met bucket after bucket, and within a bucket in its order. */
  lemma {:induction false} EntriesInOrder<V>(t: seq<Bucket<V>>, cap: nat, i: nat, j: nat)
    requires cap > 0 && i < j < |Entries(t)|
    requires forall b: nat, k: nat | b < |t| && k < |t[b]| :: Hash(t[b][k].key, cap) == b
    ensures Hash(Entries(t)[i].key, cap) <= Hash(Entries(t)[j].key, cap)
  {
    hide Hash;
    var n := |t| - 1;
    var earlier := Entries(t[..n]);
    if j < |earlier| {
      EntriesInOrder(t[..n], cap, i, j);
    } else if i < |earlier| {
      EntriesByBucket(t[..n], cap, earlier[i]);
      assert earlier[i] in earlier;
    }
  }

  lemma EntriesAreTheMap<V>(t: Table<V>, key: Key, value: Option<V>)
    requires Placed(t)
    ensures Distinct(Entries(t))
    ensures Association(key, value) in Entries(t) <==> Lookup(t, key) == Some(value)
  {
    EntriesDistinct(t, |t|);
    EntriesByBucket(t, |t|, Association(key, value));
    var c := t[Hash(key, |t|)];
    if Association(key, value) in c {
      var i: nat :| i < |c| && c[i] == Association(key, value);
      FoundAt(c, key, i);
    }
  }

  // ---- Runs -------------------------------------------------------------------------------

  datatype Op<V> = PutOp(key: Key, value: Option<V>) | RemoveOp(key: Key)

  /** The table of the given capacity after these calls. */
  function Run<V>(ops: seq<Op<V>>, cap: nat): Table<V>
    requires cap > 0
  {
    if ops == [] then Empty(cap)
    else
      var t := Run(ops[..|ops| - 1], cap);
      match ops[|ops| - 1]
      case PutOp(key, value) => Put(t, key, value)
      case RemoveOp(key) => Remove(t, key)
  }

  /** The map after the same calls. */
  function MapAfter<V>(ops: seq<Op<V>>): map<Key, Option<V>> {
    if ops == [] then map[]
    else
      var m := MapAfter(ops[..|ops| - 1]);
      match ops[|ops| - 1]
      case PutOp(key, value) => m[key := value]
      case RemoveOp(key) => m - {key}
  }

  lemma {:induction false} NothingEntered<V>(cap: nat)
    ensures Entries(Empty<V>(cap)) == []
  {
    if cap > 0 {
      NothingEntered<V>(cap - 1);
      assert Empty<V>(cap)[..cap - 1] == Empty<V>(cap - 1);
    }
  }

  /** Whatever was put and removed, in whatever order, and however many buckets there are: the table is the map,
    * and the count is its size. */
  lemma {:induction false} RunIsTheMap<V>(ops: seq<Op<V>>, cap: nat, key: Key)
    requires cap > 0
    ensures var t, m := Run(ops, cap), MapAfter(ops);
            && Placed(t)
            && Lookup(t, key) == (if key in m then Some(m[key]) else None)
            && |Entries(t)| == |m|
  {
    if ops == [] {
      NothingEntered<V>(cap);
    } else {
      var before, op := ops[..|ops| - 1], ops[|ops| - 1];
      RunIsTheMap(before, cap, key);
      RunIsTheMap(before, cap, op.key);
      var t := Run(before, cap);
      match op {
        case PutOp(k, value) => PutRefines(t, k, value, key);
        case RemoveOp(k) => RemoveRefines(t, k, key);
      }
    }
  }
}
