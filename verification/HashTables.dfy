/** The chained hash table of the core: an array of buckets, each a linked list, relinked in place by insertion,
    erasure and growth, and an iterator that survives the erasure of what it last returned. */
module HashTables {
  import opened Options

  class Node<K(==), V> {
    const k: K
    var v: V
    var next: Node?<K, V>

    constructor (k: K, v: V, next: Node?<K, V>)
      ensures this.k == k && this.v == v && this.next == next
    {
      this.k, this.v, this.next := k, v, next;
    }
  }

  /** Element j of a chain, or null past its end. */
  ghost function At<K, V>(c: seq<Node<K, V>>, j: nat): Node?<K, V> {
    if j < |c| then c[j] else null
  }

  /** The nodes of c, in order, are the list that starts at first. */
  ghost predicate Linked<K, V>(c: seq<Node<K, V>>, first: Node?<K, V>)
    reads c`next
  {
    first == At(c, 0) && forall j :: 0 <= j < |c| ==> c[j].next == At(c, j + 1)
  }

  ghost predicate Distinct<K, V>(c: seq<Node<K, V>>) {
    forall a, b | 0 <= a < b < |c| :: c[a] != c[b]
  }

  /** The nodes of c are nodes of the table whose keys belong into bucket i of n. */
  ghost predicate Belongs<K, V>(c: seq<Node<K, V>>, repr: set<Node<K, V>>, hash: K -> nat, i: nat, n: nat)
    requires n > 0
  {
    Distinct(c) && forall x | x in c :: x in repr && hash(x.k) % n == i
  }

  /** How nodes, keys and buckets fit together; no list structure yet. */
  ghost predicate Shaped<K(!new), V>(chains: seq<seq<Node<K, V>>>, nodes: map<K, Node<K, V>>, repr: set<Node<K, V>>,
                                     hash: K -> nat) {
    && |chains| > 0
    && (forall k | k in nodes :: nodes[k].k == k && nodes[k] in repr && nodes[k] in chains[hash(k) % |chains|])
    && (forall x | x in repr :: x.k in nodes && nodes[x.k] == x)
    && (forall i | 0 <= i < |chains| :: Belongs(chains[i], repr, hash, i, |chains|))
  }

  lemma ShapedAt<K(!new), V>(chains: seq<seq<Node<K, V>>>, nodes: map<K, Node<K, V>>, repr: set<Node<K, V>>,
                             hash: K -> nat, i: nat, j: nat)
    requires Shaped(chains, nodes, repr, hash) && i < |chains| && j < |chains[i]|
    ensures var x := chains[i][j]; x in repr && x.k in nodes && nodes[x.k] == x && hash(x.k) % |chains| == i
  {
    assert chains[i][j] in chains[i];
    assert Belongs(chains[i], repr, hash, i, |chains|);
  }

  lemma ShapedKey<K(!new), V>(chains: seq<seq<Node<K, V>>>, nodes: map<K, Node<K, V>>, repr: set<Node<K, V>>,
                              hash: K -> nat, k: K) returns (j: nat)
    requires Shaped(chains, nodes, repr, hash) && k in nodes
    ensures nodes[k].k == k && nodes[k] in repr
    ensures var i := hash(k) % |chains|; j < |chains[i]| && chains[i][j] == nodes[k]
  {
    var i := hash(k) % |chains|;
    assert nodes[k] in chains[i];
    j :| 0 <= j < |chains[i]| && chains[i][j] == nodes[k];
  }

  lemma ShapedInsert<K(!new), V>(chains: seq<seq<Node<K, V>>>, nodes: map<K, Node<K, V>>, repr: set<Node<K, V>>,
                                 hash: K -> nat, b: Node<K, V>)
    requires Shaped(chains, nodes, repr, hash) && b.k !in nodes && b !in repr
    ensures var i := hash(b.k) % |chains|; Shaped(chains[i := [b] + chains[i]], nodes[b.k := b], repr + {b}, hash)
  {
    var i := hash(b.k) % |chains|;
    var c := [b] + chains[i];
    var chains' := chains[i := c];
    assert Belongs(chains[i], repr, hash, i, |chains|);
    assert b !in chains[i];
    assert Distinct(c);
    forall m | 0 <= m < |chains|
      ensures Belongs(chains'[m], repr + {b}, hash, m, |chains|)
    {
      assert Belongs(chains[m], repr, hash, m, |chains|);
    }
  }

  lemma ShapedErase<K(!new), V>(chains: seq<seq<Node<K, V>>>, nodes: map<K, Node<K, V>>, repr: set<Node<K, V>>,
                                hash: K -> nat, k: K, j: nat)
    requires Shaped(chains, nodes, repr, hash) && k in nodes
    requires var i := hash(k) % |chains|; j < |chains[i]| && chains[i][j] == nodes[k]
    ensures var i := hash(k) % |chains|; var c := chains[i];
      Shaped(chains[i := c[..j] + c[j + 1..]], nodes - {k}, repr - {nodes[k]}, hash)
  {
    var i := hash(k) % |chains|;
    var c := chains[i];
    var b := nodes[k];
    var c' := c[..j] + c[j + 1..];
    var chains' := chains[i := c'];
    assert Belongs(c, repr, hash, i, |chains|);
    WithoutOne(c, j);
    hide Distinct;
    forall m | 0 <= m < |chains|
      ensures Belongs(chains'[m], repr - {b}, hash, m, |chains|)
    {
      assert Belongs(chains[m], repr, hash, m, |chains|);
    }
    forall q | q in nodes - {k}
      ensures nodes[q] in chains'[hash(q) % |chains|] && nodes[q] != b
    {
      assert nodes[q].k == q;
    }
  }

  lemma WithoutOne<K, V>(c: seq<Node<K, V>>, j: nat)
    requires Distinct(c) && j < |c|
    ensures var c' := c[..j] + c[j + 1..]; Distinct(c') && forall x :: x in c' <==> x in c && x != c[j]
  {
    var c' := c[..j] + c[j + 1..];
    forall x | x in c && x != c[j]
      ensures x in c'
    {
      var a :| 0 <= a < |c| && c[a] == x;
      assert c'[if a < j then a else a - 1] == x;
    }
  }

  lemma KeysIn<K(!new), V>(chains: seq<seq<Node<K, V>>>, nodes: map<K, Node<K, V>>, repr: set<Node<K, V>>,
                           hash: K -> nat)
    requires Shaped(chains, nodes, repr, hash)
    ensures forall k | k in nodes :: nodes[k] in repr && nodes[k].k == k
  {}

  /** The list of a bucket after one link skips its element j. */
  lemma UnlinkedChain<K, V>(c: seq<Node<K, V>>, j: nat, first: Node?<K, V>, next: Node?<K, V>, last: Node?<K, V>)
    requires Distinct(c) && j < |c| && next == At(c, j + 1) && last == if j == 0 then null else c[j - 1]
    requires first == if j == 0 then next else c[0]
    requires forall a | 0 <= a < |c| && a + 1 != j :: c[a].next == At(c, a + 1)
    requires j > 0 ==> c[j - 1].next == next
    ensures Linked(c[..j] + c[j + 1..], first)
  {}

  /** Two buckets share no node. */
  lemma Apart<K(!new), V>(chains: seq<seq<Node<K, V>>>, nodes: map<K, Node<K, V>>, repr: set<Node<K, V>>,
                          hash: K -> nat, i: nat, m: nat, x: Node<K, V>)
    requires Shaped(chains, nodes, repr, hash) && i < |chains| && m < |chains| && i != m && x in chains[i]
    ensures x !in chains[m]
  {
    assert Belongs(chains[i], repr, hash, i, |chains|) && Belongs(chains[m], repr, hash, m, |chains|);
  }

  class Hashtable<K(!new, ==), V> {
    const hash: K -> nat
    var t: array<Node?<K, V>>
    var s: nat

    ghost var chains: seq<seq<Node<K, V>>>
    /** The node of every key in the table. */
    ghost var nodes: map<K, Node<K, V>>
    ghost var repr: set<Node<K, V>>

    ghost predicate Valid()
      reads this, t, repr`next
    {
      && t.Length == |chains| > 0 && s == |nodes|
      && Shaped(chains, nodes, repr, hash)
      && forall i | 0 <= i < t.Length :: Chain(i)
    }

    ghost predicate Chain(i: nat)
      reads this, t, repr`next
    {
      i < |chains| == t.Length && (forall x | x in chains[i] :: x in repr) && Linked(chains[i], t[i])
    }

    /** The finite map the table stands for. */
    ghost function Contents(): map<K, V>
      reads this, repr`v
    {
      map k | k in nodes && nodes[k] in repr :: nodes[k].v
    }

    constructor (hash: K -> nat, bc: nat)
      requires bc > 0
      ensures Valid() && fresh(t) && nodes == map[] && repr == {} && this.hash == hash && t.Length == bc
    {
      this.hash := hash;
      t := new Node?<K, V>[bc](_ => null);
      s := 0;
      chains := seq(bc, _ => []);
      nodes := map[];
      repr := {};
    }

    /** The copy constructor: as many buckets, a new node for every node. */
    static method Copy(ht: Hashtable<K, V>) returns (r: Hashtable<K, V>)
      requires ht.Valid()
      ensures fresh(r) && r.Valid() && fresh(r.t) && fresh(r.repr)
      ensures r.Contents() == old(ht.Contents()) && r.t.Length == old(ht.t.Length) && r.hash == ht.hash
    {
      hide *;
      ht.Unpack();
      r := new Hashtable(ht.hash, ht.t.Length);
      r.InsertAll(ht);
    }

    method InsertAll(ht: Hashtable<K, V>)
      requires Valid() && ht.Valid() && ht != this && ht.t != t && repr !! ht.repr && nodes == map[] && repr == {}
      modifies this, t
      ensures Valid() && t == old(t) && fresh(repr - old(repr)) && Contents() == old(ht.Contents())
    {
      hide *;
      ghost var m := ht.Contents();
      var it := new Iterator(ht);
      StartCopy(ht, it);
      InsertRest(ht, it, m);
    }

    method InsertRest(ht: Hashtable<K, V>, it: Iterator<K, V>, ghost m: map<K, V>)
      requires Copying(ht, it, null, m)
      modifies this, t, it
      ensures Valid() && t == old(t) && fresh(repr - old(repr)) && Contents() == m
    {
      hide *;
      var n := TakeOne(ht, it, m);
      while n != null
        invariant Copying(ht, it, n, m) && (n == null ==> Passed(it)) && t == old(t) && fresh(repr - old(repr))
        decreases it.ToCome(n)
      {
        PutNew(ht, it, n, m);
        n := TakeOne(ht, it, m);
      }
      CopyDone(ht, it, m);
    }

    method PutNew(ht: Hashtable<K, V>, it: Iterator<K, V>, n: Node<K, V>, ghost m: map<K, V>)
      requires Copying(ht, it, n, m)
      modifies this, t
      ensures Copying(ht, it, null, m) && t == old(t) && fresh(repr - old(repr))
      ensures it.ToCome(null) < old(it.ToCome(n))
    {
      hide Shaped, Linked, Chain, Iterator.Pending, Iterator.ToCome;
      it.OneLess(n);
      var b := Insert(n.k, n.v);
      KeysIn(chains, nodes, repr, hash);
    }

    /** The node of k, if any: the search that get, contains, erase, set and operator[] share. */
    method Find(k: K) returns (b: Node?<K, V>)
      requires Valid()
      ensures b == if k in nodes then nodes[k] else null
    {
      hide Shaped;
      var i := hash(k) % t.Length;
      b := t[i];
      ghost var j := 0;
      assert Chain(i);
      while b != null
        invariant j <= |chains[i]| && b == At(chains[i], j)
        invariant forall a | 0 <= a < j :: chains[i][a].k != k
        decreases |chains[i]| - j
      {
        ShapedAt(chains, nodes, repr, hash, i, j);
        if b.k == k {
          return;
        }
        b := b.next;
        j := j + 1;
      }
      if k in nodes {
        var a := ShapedKey(chains, nodes, repr, hash, k);
        assert false;
      }
    }

    /** A new node at the head of its bucket. */
    method Insert(k: K, v: V) returns (b: Node<K, V>)
      requires Valid() && k !in nodes
      modifies this`s, this`chains, this`nodes, this`repr, t
      ensures Valid() && fresh(b) && b.v == v
      ensures nodes == old(nodes)[k := b] && repr == old(repr) + {b}
      ensures var i := hash(k) % t.Length;
        old(t.Length == |chains|) && chains == old(chains)[i := [b] + old(chains)[i]]
    {
      hide Shaped;
      var i := hash(k) % t.Length;
      assert Chain(i);
      b := new Node(k, v, t[i]);
      ShapedInsert(chains, nodes, repr, hash, b);
      t[i] := b;
      s := s + 1;
      chains := chains[i := [b] + chains[i]];
      nodes := nodes[k := b];
      repr := repr + {b};
      forall m | 0 <= m < t.Length
        ensures Chain(m)
      {
        assert old(Chain(m));
      }
    }

    method Get(k: K) returns (r: Option<V>)
      requires Valid()
      ensures k in nodes ==> r == Some(nodes[k].v) && Contents()[k] == nodes[k].v
      ensures k !in nodes ==> r == None
      ensures r == if k in Contents() then Some(Contents()[k]) else None
    {
      var b := Find(k);
      r := if b == null then None else Some(b.v);
    }

    /** Assign to an existing key, or add one, growing the table first when it is full. */
    method Set(k: K, v: V) returns (ghost memory: bool)
      requires Valid()
      modifies this, t, repr
      ensures Valid() && Contents() == old(Contents())[k := v]
      ensures
        if k !in old(nodes) && old(s) >= old(t.Length) && memory then t.Length == 2 * old(t.Length) else t == old(t)
      ensures fresh(repr - old(repr)) && (t == old(t) || fresh(t))
    {
      hide Shaped, Linked, Belongs;
      memory := true;
      var b := Find(k);
      if b != null {
        ghost var j := ShapedKey(chains, nodes, repr, hash, k);
        b.v := v;
        KeysIn(chains, nodes, repr, hash);
        return;
      }
      if s >= t.Length {
        var enough: bool := *;
        Grow(enough);
        memory := enough;
      }
      b := Insert(k, v);
    }

    /** The value of k, made from init when the key is new; the caller may assign to it. */
    method Index(k: K, init: V) returns (b: Node<K, V>, ghost memory: bool)
      requires Valid()
      modifies this, t, repr
      ensures Valid() && k in nodes && b == nodes[k] && b in repr
      ensures Contents() == if k in old(nodes) then old(Contents()) else old(Contents())[k := init]
      ensures
        if k !in old(nodes) && old(s) >= old(t.Length) && memory then t.Length == 2 * old(t.Length) else t == old(t)
      ensures fresh(repr - old(repr)) && (t == old(t) || fresh(t))
    {
      hide Shaped, Linked, Belongs;
      memory := true;
      var b' := Find(k);
      if b' != null {
        b := b';
        var j := ShapedKey(chains, nodes, repr, hash, k);
        return;
      }
      if s >= t.Length {
        var enough: bool := *;
        Grow(enough);
        memory := enough;
      }
      b := Insert(k, init);
    }

    /** The node of k with the one before it in its bucket. */
    method FindWithLast(k: K) returns (last: Node?<K, V>, b: Node?<K, V>, ghost j: nat)
      requires Valid()
      ensures b == if k in nodes then nodes[k] else null
      ensures var c := chains[hash(k) % t.Length];
        b != null ==> j < |c| && c[j] == b && last == if j == 0 then null else c[j - 1]
    {
      hide Shaped;
      var i := hash(k) % t.Length;
      assert Chain(i);
      last := null;
      b := t[i];
      j := 0;
      while b != null
        invariant j <= |chains[i]| && b == At(chains[i], j)
        invariant last == if j == 0 then null else chains[i][j - 1]
        invariant forall a | 0 <= a < j :: chains[i][a].k != k
        decreases |chains[i]| - j
      {
        ShapedAt(chains, nodes, repr, hash, i, j);
        if b.k == k {
          return;
        }
        last := b;
        b := b.next;
        j := j + 1;
      }
      if k in nodes {
        var a := ShapedKey(chains, nodes, repr, hash, k);
        assert false;
      }
    }

    /** Unlink the node of k. */
    method Erase(k: K) returns (found: bool)
      requires Valid()
      modifies this`s, this`chains, this`nodes, this`repr, t, repr`next
      ensures Valid() && found == (k in old(nodes))
      ensures nodes == old(nodes) - {k} && Contents() == old(Contents()) - {k} && repr <= old(repr)
      ensures !found ==> chains == old(chains)
      ensures found ==> Unlinked(old(chains), hash(k) % t.Length, old(nodes)[k], chains)
    {
      hide Shaped, Unlinked, Linked, Valid, Contents;
      Unpack();
      var last, b, j := FindWithLast(k);
      if b == null {
        Absent(k);
        return false;
      }
      Unlink(k, hash(k) % t.Length, last, b, j);
      return true;
    }

    lemma Absent(k: K)
      requires k !in nodes
      ensures nodes - {k} == nodes && Contents() - {k} == Contents()
    {}

    method Unlink(k: K, i: nat, last: Node?<K, V>, b: Node<K, V>, ghost j: nat)
      requires Valid() && k in nodes && b == nodes[k] && i == hash(k) % t.Length
      requires j < |chains[i]| && chains[i][j] == b && last == if j == 0 then null else chains[i][j - 1]
      modifies this`s, this`chains, this`nodes, this`repr, t, repr`next
      ensures Valid() && nodes == old(nodes) - {k} && repr == old(repr) - {b}
      ensures Contents() == old(Contents()) - {k}
      ensures Unlinked(old(chains), i, b, chains)
    {
      hide Shaped, Linked, Distinct;
      ghost var c := chains[i];
      assert Chain(i);
      ShapedErase(chains, nodes, repr, hash, k, j);
      BucketDistinct(chains, nodes, repr, hash, i);
      ApartFromAll(chains, nodes, repr, hash, i, b);
      KeysIn(chains, nodes, repr, hash);
      WithoutOne(c, j);
      Relink(i, last, b, j);
      forall m | 0 <= m < t.Length && m != i
        ensures (forall x | x in chains[m] :: x in repr - {b}) && Linked(chains[m], t[m])
      {
        assert Chain(m);
      }
      s := s - 1;
      chains := chains[i := c[..j] + c[j + 1..]];
      nodes := nodes - {k};
      repr := repr - {b};
      assert Chain(i);
    }

    /** Make the link to b skip it. */
    method Relink(i: nat, last: Node?<K, V>, b: Node<K, V>, ghost j: nat)
      requires Valid() && i < t.Length
      requires j < |chains[i]| && chains[i][j] == b && last == if j == 0 then null else chains[i][j - 1]
      modifies t, repr`next
      ensures Linked(chains[i][..j] + chains[i][j + 1..], t[i])
      ensures forall m | 0 <= m < t.Length && m != i :: Chain(m)
    {
      hide Shaped;
      assert Chain(i);
      BucketDistinct(chains, nodes, repr, hash, i);
      if last != null {
        ApartFromAll(chains, nodes, repr, hash, i, last);
        last.next := b.next;
      } else {
        t[i] := b.next;
      }
      UnlinkedChain(chains[i], j, t[i], b.next, last);
      forall m | 0 <= m < t.Length && m != i
        ensures Chain(m)
      {
        assert old(Chain(m));
      }
    }

    /** Erase all entries. */
    method Clear()
      requires Valid()
      modifies this`s, this`chains, this`nodes, this`repr, t
      ensures Valid() && nodes == map[] && repr == {} && chains == seq(|old(chains)|, _ => [])
    {
      if s != 0 {
        for i := 0 to t.Length
          invariant forall m | 0 <= m < i :: t[m] == null
          modifies t
        {
          t[i] := null;
        }
        s := 0;
      } else {
        forall m | 0 <= m < t.Length
          ensures t[m] == null
        {
          assert Chain(m);
          EmptyTable(chains, nodes, repr, hash, m);
        }
      }
      nodes := map[];
      repr := {};
      chains := seq(|chains|, _ => []);
    }

    /** Replace the contents by those of another table; a table assigned to itself is empty. */
    method Assign(ht: Hashtable<K, V>)
      requires Valid() && ht.Valid() && (ht == this || (ht.t != t && repr !! ht.repr))
      modifies this, t, repr
      ensures Valid() && Contents() == if ht == this then map[] else old(ht.Contents())
    {
      hide Shaped, Linked, Chain;
      KeysIn(ht.chains, ht.nodes, ht.repr, ht.hash);
      Clear();
      if ht.s == 0 {
        assert ht.nodes.Keys == {};
      } else {
        CopyAll(ht);
      }
    }

    method CopyAll(ht: Hashtable<K, V>)
      requires Valid() && ht.Valid() && ht != this && ht.t != t && repr !! ht.repr && nodes == map[] && repr == {}
      modifies this, t
      ensures Valid() && Contents() == old(ht.Contents())
    {
      hide *;
      ghost var m := ht.Contents();
      var it := new Iterator(ht);
      StartCopy(ht, it);
      CopyRest(ht, it, m);
    }

    method CopyRest(ht: Hashtable<K, V>, it: Iterator<K, V>, ghost m: map<K, V>)
      requires Copying(ht, it, null, m)
      modifies this, t, repr, it
      ensures Valid() && Contents() == m
    {
      hide *;
      var n := TakeOne(ht, it, m);
      while n != null
        invariant Copying(ht, it, n, m) && (n == null ==> Passed(it)) && (t == old(t) || fresh(t))
          && fresh(repr - old(repr))
        decreases it.ToCome(n)
      {
        PutOne(ht, it, n, m);
        n := TakeOne(ht, it, m);
      }
      CopyDone(ht, it, m);
    }

    /** Midway through Assign: what the iterator has passed, except n, is here. */
    ghost predicate Copying(ht: Hashtable<K, V>, it: Iterator<K, V>, n: Node?<K, V>, m: map<K, V>)
      reads this, t, repr, it, ht, ht.t, ht.repr
    {
      && it.ht == ht && ht != this && t != ht.t && repr !! ht.repr && Valid() && it.Valid()
      && (forall k | k in ht.nodes :: ht.nodes[k] in ht.repr) && ht.Contents() == m
      && (forall k | k in nodes :: nodes[k] in repr)
      && (n != null ==> n.k in ht.nodes && n == ht.nodes[n.k] && !it.Pending(n.k))
      && (forall k :: k in Contents() <==> k in m && !it.Pending(k) && (n == null || k != n.k))
      && (forall k | k in Contents() :: Contents()[k] == m[k])
    }

    ghost predicate Passed(it: Iterator<K, V>)
      reads it, it.ht
    {
      forall k :: !it.Pending(k)
    }

    lemma StartCopy(ht: Hashtable<K, V>, it: Iterator<K, V>)
      requires Valid() && ht.Valid() && ht != this && ht.t != t && repr !! ht.repr && nodes == map[] && repr == {}
      requires it.ht == ht && it.Valid() && forall k | k in ht.nodes :: it.Pending(k)
      ensures Copying(ht, it, null, ht.Contents())
    {
      KeysIn(ht.chains, ht.nodes, ht.repr, ht.hash);
      hide Shaped, Linked, Chain;
    }

    lemma CopyDone(ht: Hashtable<K, V>, it: Iterator<K, V>, m: map<K, V>)
      requires Copying(ht, it, null, m) && Passed(it)
      ensures Valid() && Contents() == m
    {}

    method PutOne(ht: Hashtable<K, V>, it: Iterator<K, V>, n: Node<K, V>, ghost m: map<K, V>)
      requires Copying(ht, it, n, m)
      modifies this, t, repr
      ensures Copying(ht, it, null, m) && (t == old(t) || fresh(t)) && fresh(repr - old(repr))
      ensures it.ToCome(null) < old(it.ToCome(n))
    {
      hide Shaped, Linked, Chain, Iterator.Pending, Iterator.ToCome;
      it.OneLess(n);
      ghost var memory := Set(n.k, n.v);
      KeysIn(chains, nodes, repr, hash);
    }

    method TakeOne(ht: Hashtable<K, V>, it: Iterator<K, V>, ghost m: map<K, V>) returns (n: Node?<K, V>)
      requires Copying(ht, it, null, m)
      modifies it
      ensures Copying(ht, it, n, m) && (n == null ==> Passed(it)) && it.ToCome(n) == old(it.ToCome(null))
    {
      hide Shaped, Linked, Chain, Iterator.Pending;
      n := it.Next();
    }

    /** Buckets from i on still have their lists. */
    ghost predicate From(i: nat)
      reads this, t, repr`next
    {
      |chains| == t.Length > 0 && forall r | i <= r < t.Length :: Chain(r)
    }

    /** done holds the nodes of the buckets below i. */
    ghost predicate Moved(done: set<Node<K, V>>, i: nat)
      reads this
    {
      |chains| > 0 && done <= repr && forall x | x in repr :: x in done <==> hash(x.k) % |chains| < i
    }

    lemma AllMoved(done: set<Node<K, V>>)
      requires |chains| > 0 && Moved(done, |chains|)
      ensures done == repr
    {}

    /** Rehash into twice as many buckets, relinking every node, if there is memory for them. */
    method Grow(memory: bool)
      requires Valid()
      modifies this`t, this`chains, repr`next
      ensures Valid() && nodes == old(nodes) && repr == old(repr)
      ensures if memory then fresh(t) && t.Length == 2 * old(t.Length) else t == old(t) && chains == old(chains)
    {
      hide Shaped, Linked;
      if !memory {
        return;
      }
      var nt, nch := NoBuckets(2 * t.Length, hash);
      Rebuild(nt, nch);
    }

    method MoveAll(nt: array<Node?<K, V>>, ghost nch: seq<seq<Node<K, V>>>) returns (ghost nch': seq<seq<Node<K, V>>>)
      requires nt != t && t.Length == |chains| > 0 && Shaped(chains, nodes, repr, hash)
      requires Buckets(nt, nch, {}, hash) && From(0)
      modifies nt, repr`next
      ensures Buckets(nt, nch', repr, hash)
    {
      ghost var done: set<Node<K, V>> := {};
      assert Moved(done, 0);
      hide *;
      nch' := nch;
      for i := 0 to t.Length
        invariant From(i) && Moved(done, i)
        invariant Buckets(nt, nch', done, hash)
      {
        nch', done := MoveBucket(i, nt, nch', done);
      }
      AllMoved(done);
    }

    /** Switch to the new buckets once they hold every node. */
    method Rebuild(nt: array<Node?<K, V>>, ghost nch: seq<seq<Node<K, V>>>)
      requires Valid() && nt != t && Buckets(nt, nch, {}, hash)
      modifies this`t, this`chains, nt, repr`next
      ensures Valid() && t == nt
    {
      hide *;
      Unpack();
      ghost var was := chains;
      ghost var nch' := MoveAll(nt, nch);
      t := nt;
      chains := nch';
      ValidFromBuckets(was);
    }

    lemma Unpack()
      requires Valid()
      ensures From(0) && t.Length == |chains| > 0 && s == |nodes| && Shaped(chains, nodes, repr, hash)
    {
      hide Shaped;
    }

    lemma ValidFromBuckets(was: seq<seq<Node<K, V>>>)
      requires Shaped(was, nodes, repr, hash) && Buckets(t, chains, repr, hash) && s == |nodes|
      ensures Valid()
    {
      Regrouped(was, nodes, repr, hash, t, chains);
      hide Shaped, Linked, Buckets;
    }

    /** Move one node; the rest of its bucket and the later buckets keep their lists. */
    method MoveNode(i: nat, nt: array<Node?<K, V>>, ghost nch: seq<seq<Node<K, V>>>, ghost done: set<Node<K, V>>,
                    b: Node<K, V>, nb: Node?<K, V>, ghost rest: seq<Node<K, V>>)
      returns (ghost nch': seq<seq<Node<K, V>>>)
      requires nt != t && i < t.Length == |chains| && Shaped(chains, nodes, repr, hash) && b in chains[i] && b in repr
      requires Buckets(nt, nch, done, hash) && From(i + 1)
      requires b !in done && b !in rest && Linked(rest, nb)
      modifies nt, repr`next
      ensures Buckets(nt, nch', done + {b}, hash) && |nch'| == |nch|
      ensures From(i + 1) && Linked(rest, nb)
      ensures forall x | x in repr && x != b :: x.next == old(x.next)
    {
      hide Shaped, Linked, Buckets;
      ApartFromAll(chains, nodes, repr, hash, i, b);
      nch' := PushFront(nt, nch, done, hash, b);
      forall r | i + 1 <= r < t.Length
        ensures Chain(r)
      {
        assert old(Chain(r));
      }
    }

    /** Move the nodes of bucket i to the new array. */
    method MoveBucket(i: nat, nt: array<Node?<K, V>>, ghost nch: seq<seq<Node<K, V>>>, ghost done: set<Node<K, V>>)
      returns (ghost nch': seq<seq<Node<K, V>>>, ghost done': set<Node<K, V>>)
      requires nt != t && i < t.Length && Shaped(chains, nodes, repr, hash)
      requires Buckets(nt, nch, done, hash) && From(i) && Moved(done, i)
      modifies nt, repr`next
      ensures Buckets(nt, nch', done', hash) && |nch'| == |nch| && From(i + 1) && Moved(done', i + 1)
    {
      hide Shaped, Belongs, Linked, Buckets;
      BucketNodes(chains, nodes, repr, hash);
      nch', done' := nch, done;
      assert Chain(i) && From(i + 1);
      ghost var c := chains[i];
      var b := t[i];
      ghost var j := 0;
      assert c[0..] == c;
      assert forall x | x in c :: x !in done && x in repr;
      hide From, Moved;
      while b != null
        invariant j <= |c| && Linked(c[j..], b)
        invariant Buckets(nt, nch', done', hash) && |nch'| == |nch|
        invariant done' == done + (set x | x in c[..j]) && From(i + 1)
        decreases |c| - j
      {
        LinkedFirst(c[j..], b);
        assert c[j..][1..] == c[j + 1..];
        assert c[j] == b && c[j] in c && b !in c[..j] && b !in c[j + 1..];
        var nb := b.next;
        TailLinked(c[j..], b);
        assert c[..j + 1] == c[..j] + [b];
        nch' := MoveNode(i, nt, nch', done', b, nb, c[j + 1..]);
        done' := done' + {b};
        b := nb;
        j := j + 1;
      }
      LinkedFirst(c[j..], b);
      assert c[..j] == c;
      MovedNext(done, i, done');
    }

    lemma MovedNext(done: set<Node<K, V>>, i: nat, done': set<Node<K, V>>)
      requires i < |chains| && Shaped(chains, nodes, repr, hash) && Moved(done, i)
      requires done' == done + (set x | x in chains[i])
      ensures Moved(done', i + 1)
    {
      BucketNodes(chains, nodes, repr, hash);
    }
  }

  /** A new bucket array under construction: its lists hold exactly the nodes in done. */
  ghost predicate Buckets<K(!new), V>(nt: array<Node?<K, V>>, nch: seq<seq<Node<K, V>>>, done: set<Node<K, V>>,
                                      hash: K -> nat)
    reads nt, done`next
  {
    && |nch| == nt.Length > 0
    && (forall m | 0 <= m < |nch| ::
         Belongs(nch[m], done, hash, m, |nch|) && (forall x | x in nch[m] :: x in done) && Linked(nch[m], nt[m]))
    && (forall x | x in done :: x in nch[hash(x.k) % |nch|])
  }

  method NoBuckets<K(!new, ==), V>(nc: nat, ghost hash: K -> nat)
    returns (nt: array<Node?<K, V>>, ghost nch: seq<seq<Node<K, V>>>)
    requires nc > 0
    ensures fresh(nt) && nt.Length == nc && Buckets(nt, nch, {}, hash)
  {
    nt := new Node?<K, V>[nc](_ => null);
    nch := seq(nc, _ => []);
    EmptyBuckets<K, V>(nt, nch, hash);
  }

  lemma EmptyBuckets<K(!new), V>(nt: array<Node?<K, V>>, nch: seq<seq<Node<K, V>>>, hash: K -> nat)
    requires |nch| == nt.Length > 0
    requires forall m | 0 <= m < |nch| :: nch[m] == [] && nt[m] == null
    ensures Buckets(nt, nch, {}, hash)
  {}

  lemma LinkedFirst<K, V>(c: seq<Node<K, V>>, first: Node?<K, V>)
    requires Linked(c, first)
    ensures first == At(c, 0)
  {}

  lemma TailLinked<K, V>(c: seq<Node<K, V>>, first: Node?<K, V>)
    requires Linked(c, first) && c != []
    ensures Linked(c[1..], c[0].next)
  {
    forall a | 0 <= a < |c| - 1
      ensures c[1..][a].next == At(c[1..], a + 1)
    {
      assert c[a + 1].next == At(c, a + 2);
    }
  }

  /** Put b at the head of its bucket of the new array. */
  method PushFront<K(!new, ==), V>(nt: array<Node?<K, V>>, ghost nch: seq<seq<Node<K, V>>>,
                                   ghost done: set<Node<K, V>>, hash: K -> nat, b: Node<K, V>)
    returns (ghost nch': seq<seq<Node<K, V>>>)
    requires Buckets(nt, nch, done, hash) && b !in done
    modifies nt, b`next
    ensures Buckets(nt, nch', done + {b}, hash) && |nch'| == |nch|
  {
    var i := hash(b.k) % nt.Length;
    ghost var c := [b] + nch[i];
    b.next := nt[i];
    nt[i] := b;
    nch' := nch[i := c];
    assert Linked(c, b);
    forall m | 0 <= m < |nch'|
      ensures Belongs(nch'[m], done + {b}, hash, m, |nch'|) && (forall x | x in nch'[m] :: x in done + {b})
        && Linked(nch'[m], nt[m])
    {
      assert Belongs(nch[m], done, hash, m, |nch|);
      assert old(Linked(nch[m], nt[m]));
    }
  }

  /** Where the nodes of a table are. */
  lemma BucketNodes<K(!new), V>(chains: seq<seq<Node<K, V>>>, nodes: map<K, Node<K, V>>, repr: set<Node<K, V>>,
                                hash: K -> nat)
    requires Shaped(chains, nodes, repr, hash)
    ensures forall i | 0 <= i < |chains| :: Distinct(chains[i])
    ensures forall i, x | 0 <= i < |chains| :: x in chains[i] <==> x in repr && hash(x.k) % |chains| == i
  {
    forall i | 0 <= i < |chains|
      ensures Distinct(chains[i]) && forall x :: x in chains[i] <==> x in repr && hash(x.k) % |chains| == i
    {
      assert Belongs(chains[i], repr, hash, i, |chains|);
    }
  }

  /** The new buckets fit the same keys and nodes. */
  lemma Regrouped<K(!new), V>(chains: seq<seq<Node<K, V>>>, nodes: map<K, Node<K, V>>, repr: set<Node<K, V>>,
                              hash: K -> nat, nt: array<Node?<K, V>>, nch: seq<seq<Node<K, V>>>)
    requires Shaped(chains, nodes, repr, hash) && Buckets(nt, nch, repr, hash)
    ensures |nch| == nt.Length > 0 && Shaped(nch, nodes, repr, hash)
    ensures forall m | 0 <= m < nt.Length :: (forall x | x in nch[m] :: x in repr) && Linked(nch[m], nt[m])
  {}

  lemma BucketDistinct<K(!new), V>(chains: seq<seq<Node<K, V>>>, nodes: map<K, Node<K, V>>, repr: set<Node<K, V>>,
                                   hash: K -> nat, i: nat)
    requires Shaped(chains, nodes, repr, hash) && i < |chains|
    ensures Distinct(chains[i])
  {
    assert Belongs(chains[i], repr, hash, i, |chains|);
  }

  lemma ApartFromAll<K(!new), V>(chains: seq<seq<Node<K, V>>>, nodes: map<K, Node<K, V>>, repr: set<Node<K, V>>,
                                 hash: K -> nat, i: nat, x: Node<K, V>)
    requires Shaped(chains, nodes, repr, hash) && i < |chains| && x in chains[i]
    ensures forall m | 0 <= m < |chains| && m != i :: x !in chains[m]
  {
    forall m | 0 <= m < |chains| && m != i
      ensures x !in chains[m]
    {
      Apart(chains, nodes, repr, hash, i, m, x);
    }
  }

  lemma EmptyTable<K(!new), V>(chains: seq<seq<Node<K, V>>>, nodes: map<K, Node<K, V>>, repr: set<Node<K, V>>,
                               hash: K -> nat, m: nat)
    requires Shaped(chains, nodes, repr, hash) && |nodes| == 0 && m < |chains|
    ensures chains[m] == []
  {
    if chains[m] != [] {
      ShapedAt(chains, nodes, repr, hash, m, 0);
      assert false;
    }
  }

  ghost predicate Suffix<K, V>(rest: seq<Node<K, V>>, c: seq<Node<K, V>>) {
    |rest| <= |c| && rest == c[|c| - |rest|..]
  }

  /** Taking the first node off the rest of a bucket. */
  lemma StepRest<K(!new), V>(chains: seq<seq<Node<K, V>>>, nodes: map<K, Node<K, V>>, repr: set<Node<K, V>>,
                             hash: K -> nat, i: nat, rest: seq<Node<K, V>>, first: Node?<K, V>)
    requires Shaped(chains, nodes, repr, hash) && i < |chains| && Linked(chains[i], first)
      && Suffix(rest, chains[i]) && rest != []
    ensures Suffix(rest[1..], chains[i]) && rest[0].next == At(rest[1..], 0)
    ensures var x := rest[0]; x in repr && x.k in nodes && nodes[x.k] == x && hash(x.k) % |chains| == i
    ensures forall k | k in nodes :: nodes[k] in rest[1..] <==> nodes[k] in rest && k != rest[0].k
  {
    var c, d := chains[i], |chains[i]| - |rest|;
    assert rest[0] == c[d] && c[d].next == At(c, d + 1);
    ShapedAt(chains, nodes, repr, hash, i, d);
    BucketDistinct(chains, nodes, repr, hash, i);
    KeysIn(chains, nodes, repr, hash);
    assert forall x | x in rest :: x == rest[0] || x in rest[1..];
    assert rest[0] !in rest[1..];
  }

  /** Going on to the next bucket. */
  lemma StepBucket<K(!new), V>(chains: seq<seq<Node<K, V>>>, nodes: map<K, Node<K, V>>, repr: set<Node<K, V>>,
                               hash: K -> nat, i: nat)
    requires Shaped(chains, nodes, repr, hash)
    ensures i + 1 >= |chains| ==> forall k | k in nodes :: hash(k) % |chains| <= i
    ensures i + 1 < |chains| ==> forall k | k in nodes :: hash(k) % |chains| > i <==>
      hash(k) % |chains| > i + 1 || (hash(k) % |chains| == i + 1 && nodes[k] in chains[i + 1])
  {}

  /** A forward iterator: a bucket number and the next node of that bucket. */
  class Iterator<K(!new, ==), V> {
    const ht: Hashtable<K, V>
    var idx: nat
    var b: Node?<K, V>
    ghost var rest: seq<Node<K, V>>

    ghost predicate Valid()
      reads this, ht, ht.t, ht.repr`next
    {
      && ht.Valid() && b == At(rest, 0)
      && (if idx < |ht.chains| then Suffix(rest, ht.chains[idx]) else rest == [])
    }

    /** Keys that are still to come. */
    ghost predicate Pending(k: K)
      reads this, ht
    {
      k in ht.nodes && |ht.chains| > 0
        && (ht.hash(k) % |ht.chains| > idx || (ht.hash(k) % |ht.chains| == idx && ht.nodes[k] in rest))
    }

    /** The keys still to come, and the one just returned. */
    ghost function ToCome(n: Node?<K, V>): set<K>
      reads this, ht
    {
      (set k | k in ht.nodes && Pending(k)) + (if n == null then {} else {n.k})
    }

    constructor (ht: Hashtable<K, V>)
      requires ht.Valid()
      ensures Valid() && this.ht == ht
      ensures forall k | k in ht.nodes :: Pending(k)
    {
      this.ht, idx, b := ht, 0, ht.t[0];
      rest := ht.chains[0];
      new;
      assert ht.Chain(0);
    }

    /** The next entry, or null after the last one. */
    method Next() returns (n: Node?<K, V>)
      requires Valid()
      modifies this
      ensures Valid()
      ensures n != null ==> n.k in ht.nodes && ht.nodes[n.k] == n && n in ht.repr && old(Pending(n.k))
      ensures n != null ==> forall k :: Pending(k) <==> old(Pending(k)) && k != n.k
      ensures n == null ==> forall k :: !old(Pending(k)) && !Pending(k)
    {
      hide Shaped;
      while true
        invariant Valid() && forall k :: Pending(k) <==> old(Pending(k))
        decreases |ht.chains| + 1 - idx
      {
        if b != null {
          n := b;
          assert ht.Chain(idx);
          StepRest(ht.chains, ht.nodes, ht.repr, ht.hash, idx, rest, ht.t[idx]);
          b := b.next;
          rest := rest[1..];
          return;
        }
        StepBucket(ht.chains, ht.nodes, ht.repr, ht.hash, idx);
        idx := idx + 1;
        if idx >= ht.t.Length {
          n := null;
          return;
        }
        assert ht.Chain(idx);
        b := ht.t[idx];
        rest := ht.chains[idx];
      }
    }

    lemma OneLess(n: Node<K, V>)
      requires !Pending(n.k)
      ensures ToCome(null) < ToCome(n)
    {
      hide Pending;
      assert n.k in ToCome(n) && n.k !in ToCome(null);
    }

    lemma ToComeIs(p: set<K>)
      requires forall q :: Pending(q) <==> q in p
      ensures ToCome(null) == p
    {}

    lemma PendingIn()
      ensures forall q :: Pending(q) <==> q in ToCome(null)
    {}

    /** Erasing a key the iterator has passed, such as the one it returned last, leaves it valid with the same keys
        to come. */
    method EraseSeen(k: K)
      requires Valid() && !Pending(k)
      modifies ht`s, ht`chains, ht`nodes, ht`repr, ht.t, ht.repr`next
      ensures Valid() && ht.nodes == old(ht.nodes) - {k} && ht.Contents() == old(ht.Contents()) - {k}
        && ht.repr <= old(ht.repr)
      ensures ht.t == old(ht.t) && forall q :: Pending(q) <==> old(Pending(q))
    {
      hide Shaped, Linked;
      ghost var was := ht.chains;
      KeysIn(ht.chains, ht.nodes, ht.repr, ht.hash);
      ghost var i := ht.hash(k) % |ht.chains|;
      ghost var known := k in ht.nodes;
      ghost var b := if known then ht.nodes[k] else null;
      assert known && i == idx ==> b !in rest;
      var found := ht.Erase(k);
      if known {
        SuffixStays(was, i, b, ht.chains, idx, rest);
      }
    }
  }

  /** Taking a node out before the rest of a bucket keeps the rest. */
  lemma SuffixStays<K, V>(was: seq<seq<Node<K, V>>>, i: nat, b: Node<K, V>, chains: seq<seq<Node<K, V>>>, idx: nat,
                          rest: seq<Node<K, V>>)
    requires Unlinked(was, i, b, chains) && (idx < |was| ==> Suffix(rest, was[idx])) && (i == idx ==> b !in rest)
    ensures |chains| == |was| && (idx < |was| ==> Suffix(rest, chains[idx]))
  {
    if i == idx {
      var j :| 0 <= j < |was[i]| && was[i][j] == b && chains == was[i := was[i][..j] + was[i][j + 1..]];
      var c, d := was[i], |was[i]| - |rest|;
      assert forall p | d <= p < |c| :: c[p] == rest[p - d] && c[p] in rest;
      assert chains[i][d - 1..] == c[d..];
    }
  }

  /** One bucket lost one node, and nothing else changed. */
  ghost predicate Unlinked<K, V>(was: seq<seq<Node<K, V>>>, i: nat, b: Node<K, V>, chains: seq<seq<Node<K, V>>>) {
    && i < |was| == |chains|
    && (exists j | 0 <= j < |was[i]| :: was[i][j] == b && chains == was[i := was[i][..j] + was[i][j + 1..]])
  }

  // ---- whole iterations ----

  /** Midway through Entries: what the iterator has passed, except n, is listed once. */
  ghost predicate Listing<K(!new), V>(it: Iterator<K, V>, n: Node?<K, V>, es: seq<(K, V)>)
    reads it, it.ht, it.ht.t, it.ht.repr
  {
    && it.Valid()
    && (n != null ==> n.k in it.ht.nodes && it.ht.nodes[n.k] == n && !it.Pending(n.k))
    && (forall a, b | 0 <= a < b < |es| :: es[a].0 != es[b].0)
    && (forall e | e in es ::
         e.0 in it.ht.nodes && e.1 == it.ht.nodes[e.0].v && !it.Pending(e.0) && (n == null || e.0 != n.k))
    && (forall k | k in it.ht.nodes :: it.Pending(k) || (n != null && k == n.k) || (k, it.ht.nodes[k].v) in es)
  }

  lemma {:induction false} KeyCount<K, V>(es: seq<(K, V)>)
    requires forall a, b | 0 <= a < b < |es| :: es[a].0 != es[b].0
    ensures |(set e | e in es :: e.0)| == |es|
  {
    if es != [] {
      var rest, last := es[..|es| - 1], es[|es| - 1];
      KeyCount(rest);
      assert es == rest + [last];
      assert (set e | e in es :: e.0) == (set e | e in rest :: e.0) + {last.0};
    }
  }

  lemma Listed<K(!new), V>(it: Iterator<K, V>, es: seq<(K, V)>)
    requires Listing(it, null, es) && forall k :: !it.Pending(k)
    ensures forall k, v :: (k, v) in es <==> k in it.ht.Contents() && it.ht.Contents()[k] == v
    ensures |es| == it.ht.s
  {
    KeysIn(it.ht.chains, it.ht.nodes, it.ht.repr, it.ht.hash);
    hide Shaped, Linked;
    KeyCount(es);
    assert (set e | e in es :: e.0) == it.ht.nodes.Keys;
  }

  method ListOne<K(!new, ==), V>(it: Iterator<K, V>, n: Node<K, V>, es: seq<(K, V)>)
    returns (n': Node?<K, V>, es': seq<(K, V)>)
    requires Listing(it, n, es)
    modifies it
    ensures Listing(it, n', es') && (n' == null ==> forall k :: !it.Pending(k)) && it.ToCome(n') < old(it.ToCome(n))
  {
    hide Shaped, Linked, Iterator.Pending;
    it.OneLess(n);
    es' := es + [(n.k, n.v)];
    n' := it.Next();
  }

  /** entries: every entry once. */
  method Entries<K(!new, ==), V>(ht: Hashtable<K, V>) returns (es: seq<(K, V)>)
    requires ht.Valid()
    ensures forall a, b | 0 <= a < b < |es| :: es[a].0 != es[b].0
    ensures forall k, v :: (k, v) in es <==> k in ht.Contents() && ht.Contents()[k] == v
    ensures |es| == ht.s
  {
    hide Shaped, Linked;
    es := [];
    var it := new Iterator(ht);
    var n := it.Next();
    while n != null
      invariant Listing(it, n, es) && it.ht == ht && (n == null ==> forall k :: !it.Pending(k))
      decreases it.ToCome(n)
      modifies it
    {
      n, es := ListOne(it, n, es);
    }
    Listed(it, es);
  }

  /** Midway through EraseUnless: what the iterator has passed, except n, is kept only if keep wants it. */
  ghost predicate Cleaning<K(!new), V>(it: Iterator<K, V>, n: Node?<K, V>, keep: (K, V) -> bool, m: map<K, V>)
    reads it, it.ht, it.ht.t, it.ht.repr
  {
    && it.Valid()
    && (n != null ==> n.k in it.ht.nodes && it.ht.nodes[n.k] == n && n in it.ht.repr && !it.Pending(n.k))
    && (forall k :: k in it.ht.Contents() <==> k in m && (it.Pending(k) || (n != null && n.k == k) || keep(k, m[k])))
    && (forall k | k in it.ht.Contents() :: it.ht.Contents()[k] == m[k])
  }

  /** Iterate, and erase each entry just returned that keep does not want. */
  method EraseUnless<K(!new, ==), V>(ht: Hashtable<K, V>, keep: (K, V) -> bool)
    requires ht.Valid()
    modifies ht`s, ht`chains, ht`nodes, ht`repr, ht.t, ht.repr`next
    ensures ht.Valid()
    ensures ht.Contents() == Filtered(old(ht.Contents()), keep)
  {
    ghost var m := ht.Contents();
    var it := new Iterator(ht);
    StartCleaning(it, keep);
    hide *;
    var n := Advance(it, keep, m);
    while n != null
      invariant Cleaning(it, n, keep, m) && (n == null ==> forall k :: !it.Pending(k))
      invariant it.ht == ht && ht.t == old(ht.t) && ht.repr <= old(ht.repr)
      decreases it.ToCome(n)
    {
      Examine(it, n, keep, m);
      n := Advance(it, keep, m);
    }
    DoneCleaning(it, keep, m);
  }

  ghost function Filtered<K, V>(m: map<K, V>, keep: (K, V) -> bool): map<K, V> {
    map k | k in m && keep(k, m[k]) :: m[k]
  }

  lemma StartCleaning<K(!new), V>(it: Iterator<K, V>, keep: (K, V) -> bool)
    requires it.Valid() && forall k | k in it.ht.nodes :: it.Pending(k)
    ensures Cleaning(it, null, keep, it.ht.Contents())
  {
    KeysIn(it.ht.chains, it.ht.nodes, it.ht.repr, it.ht.hash);
    hide Shaped, Linked;
  }

  lemma DoneCleaning<K(!new), V>(it: Iterator<K, V>, keep: (K, V) -> bool, m: map<K, V>)
    requires Cleaning(it, null, keep, m) && forall k :: !it.Pending(k)
    ensures it.ht.Valid() && it.ht.Contents() == Filtered(m, keep)
  {
    hide Shaped, Linked;
  }

  method Advance<K(!new, ==), V>(it: Iterator<K, V>, ghost keep: (K, V) -> bool, ghost m: map<K, V>)
    returns (n: Node?<K, V>)
    requires Cleaning(it, null, keep, m)
    modifies it
    ensures Cleaning(it, n, keep, m) && (n == null ==> forall k :: !it.Pending(k))
      && it.ToCome(n) == old(it.ToCome(null))
  {
    hide Shaped, Linked, Iterator.Pending;
    n := it.Next();
  }

  method Examine<K(!new, ==), V>(it: Iterator<K, V>, n: Node<K, V>, keep: (K, V) -> bool, ghost m: map<K, V>)
    requires Cleaning(it, n, keep, m)
    modifies it.ht`s, it.ht`chains, it.ht`nodes, it.ht`repr, it.ht.t, it.ht.repr`next
    ensures Cleaning(it, null, keep, m) && it.ht.t == old(it.ht.t) && it.ht.repr <= old(it.ht.repr)
    ensures it.ToCome(null) < old(it.ToCome(n))
  {
    hide Shaped, Linked, Iterator.Pending, Iterator.ToCome;
    KeysIn(it.ht.chains, it.ht.nodes, it.ht.repr, it.ht.hash);
    it.OneLess(n);
    it.PendingIn();
    ghost var p := it.ToCome(null);
    if !keep(n.k, n.v) {
      it.EraseSeen(n.k);
      it.ToComeIs(p);
    }
  }
}
