// hash.c: a table of chained buckets that doubles when a chain gets long.
module Hashes {
  import opened BitArithmetic
  import opened Wrappers

  const HASH_INITIAL_SIZE := 256
  const HASH_THRESHOLD := 10

  // ---- the table ----

  datatype Bucket<D> = Bucket(key: nat, data: D)

  // K classifies the stored data: hash_cmp holds of items of the same class, and such items hash alike.
  class HashTable<K(!new, ==), D(!new, ==)> {
    const hashKey: D -> nat
    const hashCmp: (D, D) -> bool
    ghost const classOf: D -> K
    var index: array<seq<Bucket<D>>>
    var size: nat
    var count: int
    var noExpand: bool
    ghost var view: map<K, D>

    ghost predicate Coherent() {
      && (forall a, b :: hashCmp(a, b) <==> classOf(a) == classOf(b))
      && (forall a, b {:trigger classOf(a), classOf(b)} :: classOf(a) == classOf(b) ==> hashKey(a) == hashKey(b))
    }

    ghost function BucketOf(d: D): Bucket<D> {
      Bucket(hashKey(d), d)
    }

    // Chain i of n holds only entries of v that belong there, each once.
    ghost predicate ChainHolds(chain: seq<Bucket<D>>, i: nat, n: nat, v: map<K, D>)
      requires n > 0
    {
      && (forall b :: b in chain ==>
        b == BucketOf(b.data) && b.key % n == i && classOf(b.data) in v && v[classOf(b.data)] == b.data)
      && (forall j, k :: 0 <= j < k < |chain| ==> classOf(chain[j].data) != classOf(chain[k].data))
    }

    ghost predicate Stored(ix: seq<seq<Bucket<D>>>, v: map<K, D>, k: K)
      requires |ix| > 0 && k in v
    {
      classOf(v[k]) == k && BucketOf(v[k]) in ix[hashKey(v[k]) % |ix|]
    }

    // The chains hold exactly the entries of v.
    ghost predicate Holds(ix: seq<seq<Bucket<D>>>, v: map<K, D>) {
      && |ix| > 0
      && (forall i :: 0 <= i < |ix| ==> ChainHolds(ix[i], i, |ix|, v))
      && (forall k :: k in v ==> Stored(ix, v, k))
    }

    ghost predicate Valid()
      reads this, index
    {
      && Coherent() && PowerOfTwo(size) && index.Length == size && count == |view| && Holds(index[..], view)
    }

    // hash_create_size
    constructor (size: nat, hashKey: D -> nat, hashCmp: (D, D) -> bool, ghost classOf: D -> K)
      requires size < 0x1_0000_0000 && And(size, (size - 1) % 0x1_0000_0000) == 0
      requires forall a, b :: hashCmp(a, b) <==> classOf(a) == classOf(b)
      requires forall a, b {:trigger classOf(a), classOf(b)} :: classOf(a) == classOf(b) ==> hashKey(a) == hashKey(b)
      ensures (Valid() <==> size > 0) && view == map[] && this.size == size && !noExpand && fresh(index)
    {
      if size > 0 {
        AndWithPredecessor(size);
      }
      this.hashKey, this.hashCmp, this.classOf := hashKey, hashCmp, classOf;
      this.size, count, noExpand, view := size, 0, false, map[];
      index := new seq<Bucket<D>>[size](_ => []);
    }

    // hash_create
    constructor Default(hashKey: D -> nat, hashCmp: (D, D) -> bool, ghost classOf: D -> K)
      requires forall a, b :: hashCmp(a, b) <==> classOf(a) == classOf(b)
      requires forall a, b {:trigger classOf(a), classOf(b)} :: classOf(a) == classOf(b) ==> hashKey(a) == hashKey(b)
      ensures Valid() && view == map[] && size == 256 && !noExpand && fresh(index)
    {
      this.hashKey, this.hashCmp, this.classOf := hashKey, hashCmp, classOf;
      size, count, noExpand, view := HASH_INITIAL_SIZE, 0, false, map[];
      index := new seq<Bucket<D>>[HASH_INITIAL_SIZE](_ => []);
      assert PowerOfTwo(HASH_INITIAL_SIZE) by {
        assert PowerOfTwo(2) && PowerOfTwo(4) && PowerOfTwo(8) && PowerOfTwo(16) && PowerOfTwo(32) && PowerOfTwo(64);
      }
    }

    // Linking in a bucket of a new class
    lemma Linked(ix: seq<seq<Bucket<D>>>, v: map<K, D>, d: D)
      requires Coherent() && Holds(ix, v) && classOf(d) !in v
      ensures var h := hashKey(d) % |ix|; Holds(ix[h := [BucketOf(d)] + ix[h]], v[classOf(d) := d])
    {
      var h := hashKey(d) % |ix|;
      var ix', v' := ix[h := [BucketOf(d)] + ix[h]], v[classOf(d) := d];
      forall i | 0 <= i < |ix'| ensures ChainHolds(ix'[i], i, |ix'|, v') {
        assert ChainHolds(ix[i], i, |ix|, v);
      }
      forall k | k in v' ensures Stored(ix', v', k) {
        assert k in v ==> Stored(ix, v, k);
      }
    }

    // Unlinking the bucket at position j of its chain
    lemma Unlinked(ix: seq<seq<Bucket<D>>>, v: map<K, D>, h: nat, j: nat)
      requires Coherent() && Holds(ix, v) && h < |ix| && j < |ix[h]|
      ensures classOf(ix[h][j].data) in v && h == hashKey(ix[h][j].data) % |ix|
      ensures Holds(ix[h := ix[h][..j] + ix[h][j + 1..]], v - {classOf(ix[h][j].data)})
    {
      assert ChainHolds(ix[h], h, |ix|, v);
      var b := ix[h][j];
      var ix', v' := ix[h := ix[h][..j] + ix[h][j + 1..]], v - {classOf(b.data)};
      assert b in ix[h];
      forall i | 0 <= i < |ix'| ensures ChainHolds(ix'[i], i, |ix'|, v') {
        assert ChainHolds(ix[i], i, |ix|, v);
        if i == h {
          ChainWithout(ix[h], h, |ix|, v, j);
        } else {
          forall c | c in ix[i] ensures classOf(c.data) != classOf(b.data) {
            assert c == BucketOf(c.data) && b == BucketOf(b.data);
          }
        }
      }
      forall k | k in v' ensures Stored(ix', v', k) {
        assert Stored(ix, v, k);
        if hashKey(v[k]) % |ix| == h {
          var m :| 0 <= m < |ix[h]| && ix[h][m] == BucketOf(v[k]);
          assert ix'[h][if m < j then m else m - 1] == BucketOf(v[k]);
        }
      }
    }

    lemma ChainWithout(chain: seq<Bucket<D>>, i: nat, n: nat, v: map<K, D>, j: nat)
      requires n > 0 && ChainHolds(chain, i, n, v) && j < |chain|
      ensures ChainHolds(chain[..j] + chain[j + 1..], i, n, v - {classOf(chain[j].data)})
    {
      var r, v' := chain[..j] + chain[j + 1..], v - {classOf(chain[j].data)};
      forall b | b in r ensures b in chain && classOf(b.data) != classOf(chain[j].data) {
        var m :| 0 <= m < |r| && r[m] == b;
        assert b == chain[if m < j then m else m + 1];
      }
    }

    // The chain that an item belongs to.
    method ChainOf(data: D) returns (key: nat, h: nat)
      requires Valid()
      ensures key == hashKey(data) && h == key % size && h < size
    {
      key := hashKey(data);
      h := And(key, size - 1);
      MaskIsRemainder(key, size);
    }

    // A stored item of the class of d stands in the chain of d; an entry of that chain matches d only if
    // it is that item.
    lemma Matches(d: D, h: nat)
      requires Valid() && h == hashKey(d) % size && h < size
      ensures classOf(d) in view ==> BucketOf(view[classOf(d)]) in index[h]
      ensures forall b :: b in index[h] ==>
        ((b.key == hashKey(d) && hashCmp(b.data, d)) <==> classOf(d) in view && b.data == view[classOf(d)])
    {
      assert ChainHolds(index[..][h], h, size, view);
      if classOf(d) in view {
        assert Stored(index[..], view, classOf(d));
      }
      forall b | b in index[h]
        ensures (b.key == hashKey(d) && hashCmp(b.data, d)) <==> classOf(d) in view && b.data == view[classOf(d)]
      {
        assert b == BucketOf(b.data) && classOf(b.data) in view;
      }
    }

    // The walk along the chain of data, shared by hash_get and hash_release: where the item is, or the
    // length of the chain.
    method Search(data: D) returns (key: nat, h: nat, at: nat)
      requires Valid()
      ensures key == hashKey(data) && h == key % size && h < size && at <= |index[h]|
      ensures at < |index[h]| <==> classOf(data) in view
      ensures at < |index[h]| ==> index[h][at] == BucketOf(view[classOf(data)])
    {
      key, h := ChainOf(data);
      Matches(data, h);
      ghost var found := classOf(data) in view;
      var chain := index[h];
      hide HashTable.Holds, HashTable.Coherent;
      at := 0;
      while at < |chain|
        invariant 0 <= at <= |chain|
        invariant found ==> BucketOf(view[classOf(data)]) in chain[at..]
      {
        var bucket := chain[at];
        assert bucket in chain;
        if bucket.key == key && hashCmp(bucket.data, data) {
          return;
        }
        at := at + 1;
      }
    }

    // Link a new bucket in at the front of its chain.
    method Link(key: nat, h: nat, item: D)
      requires Valid() && key == hashKey(item) && h == key % size && h < size && classOf(item) !in view
      modifies this`view, this`count, index
      ensures Valid() && view == old(view)[classOf(item) := item]
    {
      hide HashTable.Holds, HashTable.Coherent;
      Linked(index[..], view, item);
      index[h] := [Bucket(key, item)] + index[h];
      view := view[classOf(item) := item];
      count := count + 1;
      assert index[..] == old(index[..][h := [BucketOf(item)] + index[h]]);
    }

    // Unlink the bucket at position j of chain h.
    method Unlink(h: nat, j: nat)
      requires Valid() && h < size && j < |index[h]|
      modifies this`view, this`count, index
      ensures Valid() && classOf(old(index[h][j]).data) in old(view)
      ensures view == old(view) - {classOf(old(index[h][j]).data)}
      ensures index[..] == old(index[..][h := index[h][..j] + index[h][j + 1..]])
    {
      hide HashTable.Holds, HashTable.Coherent;
      Unlinked(index[..], view, h, j);
      ghost var k := classOf(index[h][j].data);
      index[h] := index[h][..j] + index[h][j + 1..];
      assert |view - {k}| == |view| - 1 by { LessOne(view, k); }
      view := view - {k};
      count := count - 1;
      assert index[..] == old(index[..][h := index[h][..j] + index[h][j + 1..]]);
    }

    static lemma LessOne(m: map<K, D>, k: K)
      requires k in m
      ensures |m - {k}| == |m| - 1
    {
      assert m == (m - {k})[k := m[k]];
    }

    // How far the chains of ix exceed half the threshold.
    static function Losers(ix: seq<seq<Bucket<D>>>): nat {
      if ix == [] then 0
      else
        var n := |ix| - 1;
        Losers(ix[..n]) + if |ix[n]| > HASH_THRESHOLD / 2 then |ix[n]| - HASH_THRESHOLD / 2 else 0
    }

    // Entry k has not been moved yet, when only rest is left of chain i and everything before it has been.
    ghost predicate Waits(v: map<K, D>, n: nat, i: nat, rest: seq<Bucket<D>>, k: K)
      requires n > 0 && k in v
    {
      var h := hashKey(v[k]) % n;
      h > i || (h == i && BucketOf(v[k]) in rest)
    }

    // Then chains hold exactly the entries that no longer wait.
    ghost predicate Moved(n: nat, i: nat, rest: seq<Bucket<D>>, chains: seq<seq<Bucket<D>>>, moved: map<K, D>)
      reads this`view
      requires n > 0
    {
      && Holds(chains, moved)
      && (forall k :: k in moved ==> k in view && moved[k] == view[k] && !Waits(view, n, i, rest, k))
      && (forall k :: k in view ==> k in moved || Waits(view, n, i, rest, k))
    }

    lemma MovedOne(ix: seq<seq<Bucket<D>>>, i: nat, j: nat, chains: seq<seq<Bucket<D>>>, moved: map<K, D>)
      requires Coherent() && Holds(ix, view) && i < |ix| && j < |ix[i]| && Moved(|ix|, i, ix[i][j..], chains, moved)
      ensures var b := ix[i][j]; var h := b.key % |chains|;
        b == BucketOf(b.data) && classOf(b.data) !in moved
        && Moved(|ix|, i, ix[i][j + 1..], chains[h := [b] + chains[h]], moved[classOf(b.data) := b.data])
    {
      var b, rest := ix[i][j], ix[i][j + 1..];
      assert ChainHolds(ix[i], i, |ix|, view);
      assert b in ix[i] && ix[i][j..] == [b] + rest;
      assert Waits(view, |ix|, i, ix[i][j..], classOf(b.data));
      Linked(chains, moved, b.data);
      var moved' := moved[classOf(b.data) := b.data];
      forall k | k in moved' ensures k in view && moved'[k] == view[k] && !Waits(view, |ix|, i, rest, k) {
        assert k in moved ==> !Waits(view, |ix|, i, ix[i][j..], k);
      }
      forall k | k in view ensures k in moved' || Waits(view, |ix|, i, rest, k) {
        if k !in moved && !Waits(view, |ix|, i, rest, k) {
          assert Waits(view, |ix|, i, ix[i][j..], k);
          assert Stored(ix, view, k);
        }
      }
    }

    // When chain i is used up, what waits is what is in the chains after it.
    lemma WaitsOn(ix: seq<seq<Bucket<D>>>, v: map<K, D>, i: nat, k: K)
      requires Holds(ix, v) && i < |ix| && k in v
      ensures if i + 1 < |ix| then Waits(v, |ix|, i, [], k) <==> Waits(v, |ix|, i + 1, ix[i + 1], k)
        else !Waits(v, |ix|, i, [], k)
    {
      assert Stored(ix, v, k);
    }

    lemma MovedChain(ix: seq<seq<Bucket<D>>>, i: nat, chains: seq<seq<Bucket<D>>>, moved: map<K, D>)
      requires Holds(ix, view) && i < |ix| && Moved(|ix|, i, [], chains, moved)
      ensures i + 1 < |ix| ==> Moved(|ix|, i + 1, ix[i + 1], chains, moved)
      ensures i + 1 == |ix| ==> moved == view && Holds(chains, view)
    {
      hide HashTable.Holds, HashTable.Waits;
      forall k | k in view {
        WaitsOn(ix, view, i, k);
      }
    }

    lemma NothingMoved(ix: seq<seq<Bucket<D>>>, chains: seq<seq<Bucket<D>>>)
      requires Holds(ix, view) && |chains| > 0 && forall i :: 0 <= i < |chains| ==> chains[i] == []
      ensures Moved(|ix|, 0, ix[0], chains, map[])
    {
      forall k | k in view ensures Waits(view, |ix|, 0, ix[0], k) {
        assert Stored(ix, view, k);
      }
    }

    // Move every bucket to the front of its new chain.
    method MoveAll(bigger: array<seq<Bucket<D>>>)
      requires Valid() && bigger != index && bigger.Length == 2 * size
      requires forall i :: 0 <= i < bigger.Length ==> bigger[i] == []
      modifies bigger
      ensures Holds(bigger[..], view) && PowerOfTwo(2 * size)
    {
      hide HashTable.Holds, HashTable.Moved;
      ghost var ix, moved: map<K, D> := index[..], map[];
      assert PowerOfTwo(2 * size);
      NothingMoved(ix, bigger[..]);
      var i := 0;
      while i < size
        invariant 0 <= i <= size && index[..] == ix
        invariant if i < size then Moved(size, i, ix[i], bigger[..], moved) else Holds(bigger[..], view)
      {
        var j := 0;
        while j < |index[i]|
          invariant 0 <= j <= |ix[i]| && index[..] == ix
          invariant Moved(size, i, ix[i][j..], bigger[..], moved)
        {
          var b := index[i][j];
          var h := And(b.key, 2 * size - 1);
          MaskIsRemainder(b.key, 2 * size);
          MovedOne(ix, i, j, bigger[..], moved);
          ghost var chains := bigger[..];
          bigger[h] := [b] + bigger[h];
          assert bigger[..] == chains[h := [b] + chains[h]];
          moved := moved[classOf(b.data) := b.data];
          j := j + 1;
        }
        assert ix[i][j..] == [];
        MovedChain(ix, i, bigger[..], moved);
        i := i + 1;
      }
    }

    // The second half of hash_expand: whether expanding again would help.
    method TooLong() returns (hopeless: bool)
      requires Valid()
      ensures hopeless <==> Hopeless()
    {
      hide HashTable.Holds, HashTable.Coherent, PowerOfTwo;
      hopeless := false;
      var losers := 0;
      var i := 0;
      while i < size
        invariant 0 <= i <= size && losers == Losers(index[..i])
        invariant hopeless <==> exists k :: 0 <= k < i && |index[k]| >= HASH_THRESHOLD
      {
        var len := 0;
        ghost var before, was := losers, hopeless;
        while len < |index[i]|
          invariant 0 <= len <= |index[i]|
          invariant losers == before + if len > HASH_THRESHOLD / 2 then len - HASH_THRESHOLD / 2 else 0
          invariant hopeless <==> was || len >= HASH_THRESHOLD
        {
          len := len + 1;
          if len > HASH_THRESHOLD / 2 {
            losers := losers + 1;
          }
          if len >= HASH_THRESHOLD {
            hopeless := true;
          }
        }
        assert index[..i + 1][..i] == index[..i];
        i := i + 1;
      }
      assert index[..i] == index[..];
      if losers > count / 2 {
        hopeless := true;
      }
    }

    // Whether the chains call for no further expansion
    ghost predicate Hopeless()
      reads this`index, this`size, this`count, index
      requires index.Length == size
    {
      (exists i :: 0 <= i < size && |index[i]| >= HASH_THRESHOLD) || Losers(index[..]) > count / 2
    }

    // A chain of ten, or more entries beyond the first five of their chains than half of all
    lemma HopelessIf(i: nat)
      requires index.Length == size && i < size
      ensures |index[i]| >= 10 ==> Hopeless()
      ensures count == 0 && |index[i]| == 6 ==> Hopeless()
    {
      hide HashTable.Losers;
      LosersOf(index[..], i);
    }

    static lemma {:induction false} LosersOf(ix: seq<seq<Bucket<D>>>, i: nat)
      requires i < |ix|
      ensures |ix[i]| > 5 ==> Losers(ix) >= |ix[i]| - 5
    {
      if i < |ix| - 1 {
        LosersOf(ix[..|ix| - 1], i);
      }
    }

    // With short chains there is hope.
    static lemma {:induction false} NoLosers(ix: seq<seq<Bucket<D>>>)
      ensures (forall i :: 0 <= i < |ix| ==> |ix[i]| <= 5) ==> Losers(ix) == 0
    {
      if ix != [] {
        NoLosers(ix[..|ix| - 1]);
      }
    }

    // hash_expand; a larger size could not be doubled in an unsigned int
    method Expand()
      requires Valid() && !noExpand && size <= 0x4000_0000
      modifies this`index, this`size, this`noExpand
      ensures Valid() && fresh(index) && size == 2 * old(size) && (noExpand <==> Hopeless())
    {
      hide HashTable.Holds, HashTable.Hopeless, HashTable.Coherent, PowerOfTwo;
      var bigger := new seq<Bucket<D>>[2 * size](_ => []);
      MoveAll(bigger);
      index, size := bigger, 2 * size;
      noExpand := TooLong();
    }

    // hash_get; alloc is NULL in hash_lookup
    method Get(data: D, alloc: Option<D -> Option<D>>) returns (r: Option<D>)
      requires Valid() && (alloc.Some? ==> size <= 0x4000_0000)
      requires alloc.Some? && alloc.value(data).Some? ==> classOf(alloc.value(data).value) == classOf(data)
      modifies this, index
      ensures var made := if alloc.Some? then alloc.value(data) else None;
        if classOf(data) in old(view) then r == Some(old(view)[classOf(data)]) && unchanged(this)
          && index[..] == old(index[..])
        else if made == None then r == None && unchanged(this) && index[..] == old(index[..])
        else (
          r == made && view == old(view)[classOf(data) := made.value]
          && size == if |old(index[..])[hashKey(data) % old(size)]| > 10 && !old(noExpand) then 2 * old(size)
            else old(size))
      ensures Valid() && (index == old(index) || fresh(index))
    {
      hide HashTable.Holds;
      var key, h, len := Search(data);
      if len < |index[h]| {
        return Some(index[h][len].data);
      }
      if alloc == None || alloc.value(data) == None {
        return None;
      }
      var item := alloc.value(data).value;
      if len > HASH_THRESHOLD && !noExpand {
        Expand();
        key, h := ChainOf(data);
      }
      Link(key, h, item);
      return Some(item);
    }

    // hash_lookup
    method Lookup(data: D) returns (r: Option<D>)
      requires Valid()
      modifies this, index
      ensures unchanged(this) && index[..] == old(index[..]) && r == if classOf(data) in view then
        Some(view[classOf(data)]) else None
      ensures Valid()
    {
      hide HashTable.Holds;
      r := Get(data, None);
    }

    // Only the bucket of d was taken out of chain h.
    ghost predicate Spliced(ix: seq<seq<Bucket<D>>>, ix': seq<seq<Bucket<D>>>, h: nat, d: D) {
      h < |ix| && exists j :: 0 <= j < |ix[h]| && ix[h][j] == BucketOf(d) && ix' == ix[h := ix[h][..j] + ix[h][j + 1..]]
    }

    // hash_release
    method Release(data: D) returns (r: Option<D>)
      requires Valid()
      modifies this`count, this`view, index
      ensures Valid() && view == old(view) - {classOf(data)}
      ensures r == if classOf(data) in old(view) then Some(old(view)[classOf(data)]) else None
      ensures r.Some? ==> Spliced(old(index[..]), index[..], hashKey(data) % size, r.value)
    {
      hide HashTable.Holds, HashTable.Coherent;
      var key, h, at := Search(data);
      if at < |index[h]| {
        r := Some(index[h][at].data);
        assert classOf(r.value) == classOf(data) by { OwnClass(data); }
        Unlink(h, at);
      } else {
        assert view == view - {classOf(data)};
        r := None;
      }
    }

    lemma OwnClass(data: D)
      requires Valid() && classOf(data) in view
      ensures classOf(view[classOf(data)]) == classOf(data)
    {
      assert Stored(index[..], view, classOf(data));
    }

    // items are the entries of v, each once.
    ghost predicate EachOnce(items: seq<D>, v: map<K, D>) {
      && (forall d :: d in items ==> classOf(d) in v && v[classOf(d)] == d)
      && (forall k :: k in v ==> v[k] in items)
      && (forall i, j :: 0 <= i < j < |items| ==> items[i] != items[j])
    }

    static ghost function Spared(v: map<K, D>, doomed: D -> bool): map<K, D> {
      map k | k in v && !doomed(v[k]) :: v[k]
    }

    // Halfway through an iteration that began with entries v in n chains: everything before rest in chain i
    // was visited, and what was doomed of it is gone.
    ghost predicate Iterated(v: map<K, D>, doomed: D -> bool, n: nat, i: nat, rest: seq<Bucket<D>>, visited: seq<D>,
        now: map<K, D>)
      requires n > 0
    {
      && (forall d :: d in visited ==> classOf(d) in v && v[classOf(d)] == d && !Waits(v, n, i, rest, classOf(d)))
      && (forall k :: k in v ==> v[k] in visited || Waits(v, n, i, rest, k))
      && (forall i, j :: 0 <= i < j < |visited| ==> visited[i] != visited[j])
      && (forall k :: k in now <==> k in v && (Waits(v, n, i, rest, k) || !doomed(v[k])))
      && (forall k :: k in now ==> now[k] == v[k])
    }

    // Splicing the bucket behind kept out of a chain.
    lemma SplicedAt(ix: seq<seq<Bucket<D>>>, v: map<K, D>, ix': seq<seq<Bucket<D>>>, h: nat, kept: seq<Bucket<D>>,
        b: Bucket<D>, rest: seq<Bucket<D>>)
      requires Holds(ix, v) && Spliced(ix, ix', h, b.data) && ix[h] == kept + [b] + rest
      ensures ix' == ix[h := kept + rest]
    {
      assert ChainHolds(ix[h], h, |ix|, v);
      var j :| 0 <= j < |ix[h]| && ix[h][j] == BucketOf(b.data) && ix' == ix[h := ix[h][..j] + ix[h][j + 1..]];
      assert ix[h][|kept|] == b && classOf(ix[h][j].data) == classOf(ix[h][|kept|].data);
      assert j == |kept|;
      assert ix[h][..j] == kept && ix[h][j + 1..] == rest;
    }

    // The entry at the front of rest is visited next, and dropped if it is doomed.
    lemma IteratedOne(v: map<K, D>, doomed: D -> bool, n: nat, i: nat, b: Bucket<D>, rest: seq<Bucket<D>>,
        visited: seq<D>, now: map<K, D>)
      requires n > 0 && ChainHolds([b] + rest, i, n, v) && Iterated(v, doomed, n, i, [b] + rest, visited, now)
      requires forall k :: k in v ==> classOf(v[k]) == k
      ensures classOf(b.data) in now && now[classOf(b.data)] == b.data
      ensures Iterated(v, doomed, n, i, rest, visited + [b.data], if doomed(b.data) then now - {classOf(b.data)}
        else now)
    {
      var c := classOf(b.data);
      assert ([b] + rest)[0] == b && b in [b] + rest;
      assert Waits(v, n, i, [b] + rest, c);
      forall x | x in rest ensures classOf(x.data) != c {
        var m :| 0 <= m < |rest| && rest[m] == x;
        assert ([b] + rest)[m + 1] == x;
      }
      assert !Waits(v, n, i, rest, c);
      forall k | k in v && k != c ensures Waits(v, n, i, [b] + rest, k) <==> Waits(v, n, i, rest, k) {
        assert classOf(v[k]) == k;
      }
    }

    lemma IteratedChain(ix: seq<seq<Bucket<D>>>, v: map<K, D>, doomed: D -> bool, i: nat, visited: seq<D>,
        now: map<K, D>)
      requires Holds(ix, v) && i < |ix| && Iterated(v, doomed, |ix|, i, [], visited, now)
      ensures if i + 1 < |ix| then Iterated(v, doomed, |ix|, i + 1, ix[i + 1], visited, now)
        else now == Spared(v, doomed) && EachOnce(visited, v)
    {
      hide HashTable.Holds, HashTable.Waits;
      forall k | k in v {
        WaitsOn(ix, v, i, k);
      }
    }

    lemma NothingIterated(ix: seq<seq<Bucket<D>>>, v: map<K, D>, doomed: D -> bool)
      requires Holds(ix, v)
      ensures Iterated(v, doomed, |ix|, 0, ix[0], [], v)
    {
      forall k | k in v ensures Waits(v, |ix|, 0, ix[0], k) {
        assert Stored(ix, v, k);
      }
    }

    lemma Suffix(ix: seq<seq<Bucket<D>>>, v: map<K, D>, i: nat, j: nat)
      requires Holds(ix, v) && i < |ix| && j < |ix[i]|
      ensures ChainHolds(ix[i][j..], i, |ix|, v) && ix[i][j..] == [ix[i][j]] + ix[i][j + 1..]
      ensures forall k :: k in v ==> classOf(v[k]) == k
    {
      assert ChainHolds(ix[i], i, |ix|, v);
      var rest := ix[i][j..];
      forall b | b in rest ensures b in ix[i] {}
      forall m, k | 0 <= m < k < |rest| ensures classOf(rest[m].data) != classOf(rest[k].data) {
        assert ix[i][j + m] == rest[m] && ix[i][j + k] == rest[k];
      }
      forall k | k in v ensures classOf(v[k]) == k {
        assert Stored(ix, v, k);
      }
    }

    lemma HomeOf(h: nat, kept: seq<Bucket<D>>, b: Bucket<D>, rest: seq<Bucket<D>>)
      requires Valid() && h < size && index[h] == kept + [b] + rest
      ensures h == hashKey(b.data) % size
    {
      assert ChainHolds(index[..][h], h, size, view);
      assert index[h][|kept|] == b;
    }

    // The callback of cpu_record_clear: release the entry it is called on, if it is doomed.
    method Visit(doomed: D -> bool, h: nat, ghost kept: seq<Bucket<D>>, b: Bucket<D>, ghost rest: seq<Bucket<D>>)
      requires Valid() && h < size && index[h] == kept + [b] + rest && classOf(b.data) in view
        && view[classOf(b.data)] == b.data
      modifies this`count, this`view, index
      ensures Valid() && view == if doomed(b.data) then old(view) - {classOf(b.data)} else old(view)
      ensures index[..] == old(index[..])[h := if doomed(b.data) then kept + rest else kept + [b] + rest]
    {
      hide HashTable.Holds, HashTable.Coherent, HashTable.Spliced;
      HomeOf(h, kept, b, rest);
      if doomed(b.data) {
        var r := Release(b.data);
        SplicedAt(old(index[..]), old(view), index[..], h, kept, b, rest);
      } else {
        assert index[..] == old(index[..])[h := kept + [b] + rest];
      }
    }

    lemma Basics()
      requires Valid()
      ensures index.Length == size > 0 && count == |view| && Holds(index[..], view)
    {
    }

    // hash_iterate, with that callback; visited lists the entries the callback was called on.
    method Iterate(doomed: D -> bool) returns (visited: seq<D>)
      requires Valid()
      modifies this`count, this`view, index
      ensures Valid() && view == Spared(old(view), doomed) && EachOnce(visited, old(view))
    {
      hide HashTable.Holds, HashTable.Iterated, HashTable.EachOnce, HashTable.Coherent, HashTable.ChainHolds,
        HashTable.Spared;
      hide PowerOfTwo, HashTable.Waits, HashTable.Valid;
      Basics();
      ghost var ix, v := index[..], view;
      NothingIterated(ix, v, doomed);
      visited := [];
      var i := 0;
      while i < size
        invariant 0 <= i <= size == index.Length && Valid()
        invariant forall k :: i <= k < size ==> index[k] == ix[k]
        invariant if i < size then Iterated(v, doomed, size, i, ix[i], visited, view)
          else view == Spared(v, doomed) && EachOnce(visited, v)
      {
        var hb := index[i];
        ghost var j, kept: seq<Bucket<D>> := 0, [];
        while hb != []
          invariant size == index.Length && Valid() && index[i] == kept + hb && 0 <= j <= |ix[i]| && hb == ix[i][j..]
          invariant forall k :: i < k < size ==> index[k] == ix[k]
          invariant Iterated(v, doomed, size, i, hb, visited, view)
          decreases |hb|
        {
          var b, hbnext := hb[0], hb[1..];
          assert hb == [b] + hbnext && kept + hb == kept + [b] + hbnext;
          Suffix(ix, v, i, j);
          IteratedOne(v, doomed, size, i, b, hbnext, visited, view);
          Visit(doomed, i, kept, b, hbnext);
          visited := visited + [b.data];
          j, kept, hb := j + 1, if doomed(b.data) then kept else kept + [b], hbnext;
        }
        IteratedChain(ix, v, doomed, i, visited, view);
        i := i + 1;
      }
    }

    // Free the buckets of a chain; free_func is called on the items added to freed.
    method FreeChain(i: nat, hb0: seq<Bucket<D>>, ghost ix: seq<seq<Bucket<D>>>, ghost v: map<K, D>, all: D -> bool,
        freed0: seq<D>)
      returns (freed: seq<D>)
      requires Holds(ix, v) && i < |ix| && hb0 == ix[i] && count == |view| && (forall d :: all(d))
      requires Iterated(v, all, |ix|, i, hb0, freed0, view)
      modifies this`count, this`view
      ensures count == |view| && Iterated(v, all, |ix|, i, [], freed, view)
    {
      hide HashTable.Holds, HashTable.Iterated, HashTable.ChainHolds, HashTable.Waits, HashTable.Stored,
        HashTable.Valid;
      var hb := hb0;
      freed := freed0;
      ghost var j := 0;
      while hb != []
        invariant 0 <= j <= |hb0| && hb == hb0[j..] && count == |view| && Iterated(v, all, |ix|, i, hb, freed, view)
        decreases |hb|
      {
        var b := hb[0];
        Suffix(ix, v, i, j);
        IteratedOne(v, all, |ix|, i, b, hb[1..], freed, view);
        LessOne(view, classOf(b.data));
        freed := freed + [b.data];
        view := view - {classOf(b.data)};
        count := count - 1;
        j, hb := j + 1, hb[1..];
      }
    }

    // hash_clean
    method Clean() returns (freed: seq<D>)
      requires Valid()
      modifies this`count, this`view, index
      ensures Valid() && view == map[] && EachOnce(freed, old(view))
    {
      hide HashTable.Holds, HashTable.Iterated, HashTable.EachOnce, HashTable.Coherent, HashTable.Spared;
      hide PowerOfTwo;
      Basics();
      ghost var ix, v := index[..], view;
      var all: D -> bool := _ => true;
      NothingIterated(ix, v, all);
      freed := [];
      var i := 0;
      while i < size
        invariant 0 <= i <= size && count == |view|
        invariant forall k :: 0 <= k < size ==> index[k] == if k < i then [] else ix[k]
        invariant if i < size then Iterated(v, all, size, i, ix[i], freed, view)
          else view == Spared(v, all) && EachOnce(freed, v)
      {
        freed := FreeChain(i, index[i], ix, v, all, freed);
        index[i] := [];
        IteratedChain(ix, v, all, i, freed, view);
        i := i + 1;
      }
      NoneSpared(v, all);
      EmptyHolds(index[..]);
    }

    static lemma NoneSpared(v: map<K, D>, all: D -> bool)
      requires forall d :: all(d)
      ensures Spared(v, all) == map[]
    {
    }

    lemma EmptyHolds(ix: seq<seq<Bucket<D>>>)
      requires |ix| > 0 && forall i :: 0 <= i < |ix| ==> ix[i] == []
      ensures Holds(ix, map[])
    {
    }
  }
}
