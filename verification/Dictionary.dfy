/** The chained hash dictionary of lib/dictionary.c in memory: an array of buckets, each a linked list. */
module Dictionary {
  import opened Lists
  import opened Tables
  import opened Tasks

  /** simple_hash, as the loop it is. */
  method ComputeSimpleHash(key: Key) returns (hashval: nat)
    ensures hashval == SimpleHash(key)
  {
    hashval := 0;
    for i := 0 to |key|
      invariant hashval == SimpleHash(key[..i])
    {
      assert key[..i + 1][..i] == key[..i];
      hashval := (key[i] + 31 * hashval) % U32;
    }
    assert key[..|key|] == key;
  }

  /** hash. */
  method ComputeHash(key: Key, hashSize: nat) returns (b: nat)
    requires hashSize > 0
    ensures b == Hash(key, hashSize)
  {
    var hashval := ComputeSimpleHash(key);
    b := hashval % hashSize;
  }

  type Chain<V> = seq<Node<Association<V>>>

  predicate Within<V>(chains: seq<Chain<V>>, repr: set<Node<Association<V>>>) {
    forall b: nat, i: nat | b < |chains| && i < |chains[b]| :: chains[b][i] in repr
  }

  /** The buckets these chains spell. */
  ghost function Contents<V>(chains: seq<Chain<V>>, repr: set<Node<Association<V>>>): (t: seq<Bucket<V>>)
    requires Within(chains, repr)
    reads repr
    ensures |t| == |chains| && forall b: nat | b < |t| :: t[b] == Values(chains[b])
  {
    if chains == [] then []
    else
      assert Within(chains[..|chains| - 1], repr);
      assert forall n | n in chains[|chains| - 1] :: n in repr;
      Contents(chains[..|chains| - 1], repr) + [Values(chains[|chains| - 1])]
  }

  /** The nodes' values, one by one, are the buckets: relinking nodes does not change what the chains hold. */
  lemma Relinked<V>(chains: seq<Chain<V>>, repr: set<Node<Association<V>>>, t: seq<Bucket<V>>)
    requires Within(chains, repr) && |t| == |chains|
    requires forall b: nat | b < |t| ::
               |t[b]| == |chains[b]| && forall i: nat | i < |t[b]| :: chains[b][i].value == t[b][i]
    ensures Contents(chains, repr) == t
  {
    forall b: nat | b < |t| ensures Contents(chains, repr)[b] == t[b] {
      assert Values(chains[b]) == t[b];
    }
  }

  lemma OneChainChanged<V>(chains: seq<Chain<V>>, b: nat, c: Chain<V>,
                           repr: set<Node<Association<V>>>, larger: set<Node<Association<V>>>)
    requires b < |chains| && Within(chains, repr) && Within(chains[b := c], larger)
    ensures Contents(chains[b := c], larger) == Contents(chains, repr)[b := Values(c)]
  {
  }

  /** The buckets once np is the last node of its chain. */
  lemma OneMoreNode<V>(chains: seq<Chain<V>>, repr: set<Node<Association<V>>>, t: Table<V>, np: Node<Association<V>>, key: Key)
    requires |chains| == |t| && Within(chains, repr) && Contents(chains, repr) == t && Placed(t)
    requires np.value == Association(key, None) && Tables.Lookup(t, key).None?
    ensures var b, larger, t' := Hash(key, |t|), repr + {np}, Tables.Put(t, key, None);
            var longer := chains[b := chains[b] + [np]];
            && Within(longer, larger) && Contents(longer, larger) == t'
            && Placed(t') && |Entries(t')| == |Entries(t)| + 1
  {
    hide Values, Contents, Placed, Entries, IndexOf, Hash, Stored;
    var b := Hash(key, |t|);
    PutRefines(t, key, None, key);
    NewKeyGoesLast(t, key, None);
    ValuesOfOneMore(chains[b], np);
    OneChainChanged(chains, b, chains[b] + [np], repr, repr + {np});
  }

  class Dict<V> {
    const slots: array<Node?<Association<V>>>
    var size: nat
    ghost var chains: seq<Chain<V>>
    ghost var repr: set<Node<Association<V>>>

    ghost predicate Valid()
      reads this, slots, repr
    {
      && slots.Length > 0 && |chains| == slots.Length && Within(chains, repr)
      && (forall b: nat | b < slots.Length :: IsList(slots[b], chains[b]))
      && Placed(Buckets())
      && size == |Entries(Buckets())|
    }

    ghost function Buckets(): Table<V>
      requires |chains| > 0 && Within(chains, repr)
      reads this, repr
    {
      Contents(chains, repr)
    }

    /** dict_n: with a capacity of 0 there are no buckets, and every later call divides by it. */
    constructor (cap: nat)
      ensures fresh(slots) && slots.Length == cap && repr == {} && size == 0
      ensures if cap > 0 then Valid() && Buckets() == Empty(cap) else !Valid()
    {
      slots := new Node?<Association<V>>[cap](_ => null);
      size := 0;
      chains, repr := seq(cap, _ => []), {};
      new;
      if cap > 0 {
        NothingEntered<V>(cap);
        assert Buckets() == Empty(cap);
      }
    }

    /** dlookup: the node that holds the key, or null. */
    method Lookup(key: Key) returns (np: Node?<Association<V>>)
      requires Valid()
      ensures var b, t := Hash(key, slots.Length), Buckets();
              np == At(chains[b], IndexOf(t[b], key))
    {
      var b := ComputeHash(key, slots.Length);
      np := slots[b];
      ghost var i, chain, bucket := 0, chains[b], Buckets()[b];
      while np != null && np.value.key != key
        invariant i <= |chain| && np == At(chain, i)
        invariant forall j: nat | j < i :: bucket[j].key != key
        decreases |chain| - i
      {
        assert chain[i].next == At(chain, i + 1);
        np := np.next;
        i := i + 1;
      }
      FoundAt(bucket, key, i);
    }

    /** dvalue: a missing key reads as a null pointer. */
    method Value(key: Key) returns (v: Option<V>)
      requires Valid()
      ensures v == match Tables.Lookup(Buckets(), key) case None => None case Some(stored) => stored
    {
      var np := Lookup(key);
      v := if np == null then None else np.value.value;
    }

    /** Buckets share no node: a node's key tells which one it is in. */
    lemma OneBucketOnly(b: nat, c: nat, i: nat, j: nat)
      requires Valid() && b < |chains| && c < |chains| && i < |chains[b]| && j < |chains[c]|
      requires chains[b][i] == chains[c][j]
      ensures b == c
    {
      var t := Buckets();
      assert t[b][i] == t[c][j];
      assert Hash(t[b][i].key, |t|) == b && Hash(t[c][j].key, |t|) == c;
    }

    /** Hang np behind the last node of bucket b. */
    method Append(b: nat, np: Node<Association<V>>)
      requires Valid() && b < slots.Length && np.next == null && np !in repr
      modifies slots, repr
      ensures forall c: nat | c < slots.Length :: IsList(slots[c], if c == b then chains[c] + [np] else chains[c])
      ensures forall c: nat, i: nat | c < |chains| && i < |chains[c]| :: chains[c][i].value == old(chains[c][i].value)
      ensures unchanged(np)
    {
      hide Values, Contents, Placed, Entries, Hash;
      var it := Last(slots[b], chains[b]);
      ListOfOne(np);
      if it == null {
        slots[b] := np;
        assert chains[b] + [np] == [np];
      } else {
        forall c: nat, i: nat | c < |chains| && i < |chains[c]| && chains[c][i] == it ensures c == b {
          OneBucketOnly(c, b, i, |chains[b]| - 1);
        }
        assert forall c: nat | c < |chains| && c != b :: it !in chains[c];
        Attach(it, np, slots[b], chains[b], [np]);
      }
    }

    /** __put_el_with_key: the node of the key, added at the end of its bucket if there is none. */
    method PutKey(key: Key) returns (np: Node<Association<V>>)
      requires Valid()
      modifies this, slots, repr
      ensures Valid() && fresh(repr - old(repr))
      ensures var b, t := Hash(key, slots.Length), old(Buckets());
              && IndexOf(t[b], key) < |chains[b]| && np == chains[b][IndexOf(t[b], key)]
              && Buckets() == if IndexOf(t[b], key) < |t[b]| then t else Tables.Put(t, key, None)
    {
      hide IsList, Values, Contents, Placed, Entries, Hash;
      var found := Lookup(key);
      if found != null {
        return found;
      }
      np := Insert(key);
    }

    method Insert(key: Key) returns (np: Node<Association<V>>)
      requires Valid() && Tables.Lookup(Buckets(), key).None?
      modifies this, slots, repr
      ensures Valid() && fresh(repr - old(repr))
      ensures var b := Hash(key, slots.Length);
              && |chains[b]| == |old(chains)[b]| + 1 && np == chains[b][|old(chains)[b]|]
              && Buckets() == Tables.Put(old(Buckets()), key, None)
    {
      hide IsList, Values, Contents, Placed, Entries, IndexOf, Hash, Stored, Within, Tables.Put, Tables.Lookup;
      var b := ComputeHash(key, slots.Length);
      ghost var t := Buckets();
      np := new Node(Association(key, None));
      Append(b, np);
      Relinked(chains, repr, t);
      OneMoreNode(chains, repr, t, np, key);
      ghost var longer, larger := chains[b := chains[b] + [np]], repr + {np};
      assert forall c: nat | c < slots.Length :: IsList(slots[c], longer[c]);
      chains, repr := longer, larger;
      size := size + 1;
    }

    /** Only one node is np, so only its value changes. */
    lemma OneNodeOnly(b: nat, i: nat, c: nat, j: nat)
      requires Valid() && b < |chains| && c < |chains| && i < |chains[b]| && j < |chains[c]|
      requires chains[b][i] == chains[c][j]
      ensures b == c && i == j
    {
      OneBucketOnly(b, c, i, j);
      if i < j {
        NoNodeTwice(slots[b], chains[b], i, j);
      } else if j < i {
        NoNodeTwice(slots[b], chains[b], j, i);
      }
    }

    /** dput: a key already there keeps its place. */
    method Put(key: Key, value: Option<V>) returns (np: Node<Association<V>>)
      requires Valid()
      modifies this, slots, repr
      ensures Valid() && fresh(repr - old(repr)) && np in repr && np.value == Association(key, value)
      ensures Buckets() == Tables.Put(old(Buckets()), key, value)
    {
      ghost var t := Buckets();
      np := PutKey(key);
      ghost var u, b := Buckets(), Hash(key, slots.Length);
      ghost var i := IndexOf(t[b], key);
      PutAgain(t, key, value);
      assert IndexOf(u[b], key) == i;
      Assign(np, b, i, value);
    }

    /** np->value = value. */
    method Assign(np: Node<Association<V>>, ghost b: nat, ghost i: nat, value: Option<V>)
      requires Valid() && b < |chains| && i < |chains[b]| && np == chains[b][i]
      modifies np
      ensures Valid() && np.value == old(np.value).(value := value)
      ensures Buckets() == old(Buckets())[b := old(Buckets())[b][i := np.value]]
    {
      hide Contents, Placed, Entries, IndexOf, Hash, Stored;
      ghost var t := Buckets();
      forall c: nat, j: nat | c < |chains| && j < |chains[c]| && chains[c][j] == np ensures c == b && j == i {
        OneNodeOnly(b, i, c, j);
      }
      SameKeys(t, b, i, value);
      np.value := np.value.(value := value);
      Relinked(chains, repr, t[b := t[b][i := np.value]]);
    }

    /** Take node i out of bucket b; prev is the node before it, if there is one. */
    method Detach(b: nat, prev: Node?<Association<V>>, ghost i: nat) returns (ret: Node<Association<V>>)
      requires Valid() && b < slots.Length && i < |chains[b]|
      requires prev == if i == 0 then null else chains[b][i - 1]
      modifies slots, repr
      ensures ret == old(chains[b][i]) && ret.next == null
      ensures forall c: nat | c < slots.Length ::
                IsList(slots[c], if c == b then Without(chains[b], i) else chains[c])
      ensures forall c: nat, j: nat | c < |chains| && j < |chains[c]| :: chains[c][j].value == old(chains[c][j].value)
    {
      hide IsList, Values, Contents, Placed, Entries, Hash;
      ghost var out := chains[b][i];
      forall c: nat, j: nat | c < |chains| && j < |chains[c]| && chains[c][j] == out ensures c == b {
        OneBucketOnly(c, b, j, i);
      }
      forall c: nat, j: nat | c < |chains| && j < |chains[c]| && prev != null && chains[c][j] == prev ensures c == b {
        OneBucketOnly(c, b, j, i - 1);
      }
      var start;
      start, ret := CutOut(slots[b], prev, chains[b], i);
      slots[b] := start;
      forall c: nat | c < slots.Length && c != b ensures IsList(slots[c], chains[c]) {
        assert old(IsList(slots[c], chains[c]));
      }
      forall c: nat, j: nat | c < |chains| && j < |chains[c]|
        ensures chains[c][j].value == old(chains[c][j].value)
      {
        if c == b {
          assert chains[b][j].value == old(chains[b][j].value);
        }
      }
    }

    /** dremove: the node of the key, detached, or null. */
    method Remove(key: Key) returns (ret: Node?<Association<V>>)
      requires Valid()
      modifies this, slots, repr
      ensures Valid() && repr <= old(repr)
      ensures Buckets() == Tables.Remove(old(Buckets()), key)
      ensures match Tables.Lookup(old(Buckets()), key)
              case None => ret == null
              case Some(value) =>
                ret != null && ret.next == null && ret.value == Association(key, value) && ret !in repr
    {
      hide Placed, Entries, Contents, Hash;
      var b := ComputeHash(key, slots.Length);
      ghost var i, chain, bucket := 0, chains[b], Buckets()[b];
      var prev: Node?<Association<V>> := null;
      var np := slots[b];
      if np != null && np.value.key == key {
        FoundAt(bucket, key, 0);
        ret := Drop(b, null, 0, key);
        return;
      }
      while np != null
        invariant i <= |chain| && np == At(chain, i)
        invariant forall j: nat | j <= i && j < |chain| :: bucket[j].key != key
        decreases |chain| - i
      {
        assert chain[i].next == At(chain, i + 1);
        if np.next != null && np.next.value.key == key {
          FoundAt(bucket, key, i + 1);
          ret := Drop(b, np, i + 1, key);
          return;
        }
        np := np.next;
        i := i + 1;
      }
      FoundAt(bucket, key, |chain|);
      NothingToRemove(Buckets(), key);
      ret := null;
    }

    /** The removal itself, once the place is known. */
    method Drop(b: nat, prev: Node?<Association<V>>, ghost i: nat, key: Key) returns (ret: Node<Association<V>>)
      requires Valid() && b == Hash(key, slots.Length)
      requires i < |chains[b]| && i == IndexOf(Buckets()[b], key)
      requires prev == if i == 0 then null else chains[b][i - 1]
      modifies this, slots, repr
      ensures Valid() && repr <= old(repr)
      ensures Buckets() == Tables.Remove(old(Buckets()), key)
      ensures ret == old(chains[b][i]) && ret.next == null && ret.value == old(chains[b][i].value) && ret !in repr
    {
      hide IsList, Contents, Placed, Entries, IndexOf, Hash, Without, Within, Tables.Remove;
      ghost var t, rest := Buckets(), Without(chains[b], i);
      ghost var u := t[b := Without(t[b], i)];
      BeforeDrop(b, i, key);
      OthersStay(b, i);
      ret := Detach(b, prev, i);
      AfterDetach(b, i, t);
      chains := chains[b := rest];
      repr := repr - {ret};
      size := size - 1;
    }

    /** The buckets as they will be. */
    lemma BeforeDrop(b: nat, i: nat, key: Key)
      requires Valid() && b == Hash(key, slots.Length)
      requires i < |chains[b]| && i == IndexOf(Buckets()[b], key)
      ensures var t := Buckets();
              var u := t[b := Without(t[b], i)];
              u == Tables.Remove(t, key) && Placed(u) && |Entries(u)| == size - 1
    {
      hide IsList, Contents, Placed, Entries, IndexOf, Hash, Without, Within, Tables.Remove;
      var t := Buckets();
      KeyGoes(t, key);
      RemoveRefines(t, key, key);
    }

    /** No chain passes through node i of bucket b but by that place. */
    lemma OthersStay(b: nat, i: nat)
      requires Valid() && b < |chains| && i < |chains[b]|
      ensures Within(chains[b := Without(chains[b], i)], repr - {chains[b][i]})
    {
      hide IsList, Contents, Placed, Entries, Hash;
      var out := chains[b][i];
      forall c: nat, j: nat | c < |chains| && j < |chains[c]| && chains[c][j] == out ensures c == b && j == i {
        OneNodeOnly(c, j, b, i);
      }
    }

    lemma AfterDetach(b: nat, i: nat, t: Table<V>)
      requires Within(chains, repr) && b < |chains| && i < |chains[b]| && |t| == |chains|
      requires Within(chains[b := Without(chains[b], i)], repr - {chains[b][i]})
      requires forall c: nat | c < |t| ::
                 |t[c]| == |chains[c]| && forall j: nat | j < |t[c]| :: chains[c][j].value == t[c][j]
      ensures Contents(chains[b := Without(chains[b], i)], repr - {chains[b][i]}) == t[b := Without(t[b], i)]
    {
      hide Values, Contents, Without;
      Relinked(chains, repr, t);
      ValuesWithout(chains[b], i);
      OneChainChanged(chains, b, Without(chains[b], i), repr, repr - {chains[b][i]});
    }

    /** The inner loop of for_each_assoc. */
    static method Walk(start: Node?<Association<V>>, before: seq<Association<V>>, ghost chain: Chain<V>)
      returns (visited: seq<Association<V>>)
      requires IsList(start, chain)
      ensures visited == before + Values(chain)
    {
      visited := before;
      var assoc := start;
      ghost var i, bucket := 0, Values(chain);
      while assoc != null
        invariant i <= |chain| && assoc == At(chain, i)
        invariant visited == before + bucket[..i]
        decreases |chain| - i
      {
        assert chain[i].next == At(chain, i + 1);
        assert bucket[..i + 1] == bucket[..i] + [assoc.value];
        visited := visited + [assoc.value];
        assoc := assoc.next;
        i := i + 1;
      }
    }

    /** for_each_assoc, collecting what it meets. */
    method ForEach() returns (visited: seq<Association<V>>)
      requires Valid()
      ensures visited == Entries(Buckets())
    {
      assert Entries<V>([]) == [];
      hide Placed, Entries, Contents, Hash, IsList, Values;
      visited := [];
      ghost var t := Buckets();
      for b := 0 to slots.Length
        invariant visited == Entries(t[..b])
      {
        EntriesOfOneMore(t, b);
        visited := Walk(slots[b], visited, chains[b]);
      }
      assert t[..|t|] == t;
    }
  }
}
