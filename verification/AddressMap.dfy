/** The AddressMap class: find, insert, remove, search inside ranges, iterate. */
module AddressMap {
  import opened Base
  import opened AddressMapRep

  /** `visited` holds each pair of `contents` whose key satisfies `p`, once, and nothing else. */
  ghost predicate Exactly<V>(visited: seq<Entry<V>>, contents: map<nat, V>, p: nat -> bool) {
    && (forall i :: 0 <= i < |visited| ==>
          visited[i].key in contents && contents[visited[i].key] == visited[i].value && p(visited[i].key))
    && (forall i, j :: 0 <= i < j < |visited| ==> visited[i].key != visited[j].key)
    && (forall k :: k in contents && p(k) ==> exists i :: 0 <= i < |visited| && visited[i].key == k)
  }

  lemma ExactlyConcat<V>(u: seq<Entry<V>>, v: seq<Entry<V>>, contents: map<nat, V>, p: nat -> bool, q: nat -> bool, r: nat -> bool)
    requires Exactly(u, contents, p) && Exactly(v, contents, q)
    requires forall k :: k in contents ==> (r(k) <==> p(k) || q(k)) && !(p(k) && q(k))
    ensures Exactly(u + v, contents, r)
  {
    var w := u + v;
    forall k | k in contents && r(k) ensures exists i :: 0 <= i < |w| && w[i].key == k {
      if p(k) {
        var i :| 0 <= i < |u| && u[i].key == k;
        assert w[i].key == k;
      } else {
        var i :| 0 <= i < |v| && v[i].key == k;
        assert w[|u| + i].key == k;
      }
    }
    forall i, j | 0 <= i < j < |w| ensures w[i].key != w[j].key {
      if i < |u| <= j {
        assert p(u[i].key) && q(v[j - |u|].key);
      }
    }
  }

  // ----- where Iterate meets a key

  ghost function InChain(h: nat): nat -> bool {
    (key: nat) => HashInt(ClusterID(key)) == h
  }

  ghost function ChainsBelow(h: nat): nat -> bool {
    (key: nat) => HashInt(ClusterID(key)) < h
  }

  ghost function AllKeys(): nat -> bool {
    (key: nat) => true
  }

  ghost predicate ClusterIs(table: Table, h: nat, i: nat, key: nat) {
    HashInt(ClusterID(key)) == h < |table| && IndexOf(table[h], ClusterID(key)) == i
  }

  ghost function InCluster(table: Table, h: nat, i: nat): nat -> bool {
    (key: nat) => ClusterIs(table, h, i, key)
  }

  ghost function ClustersBelow(table: Table, h: nat, i: nat): nat -> bool {
    (key: nat) => HashInt(ClusterID(key)) == h < |table| && IndexOf(table[h], ClusterID(key)) < i
  }

  ghost function InBlock(table: Table, h: nat, i: nat, b: nat): nat -> bool {
    (key: nat) => ClusterIs(table, h, i, key) && BlockID(key) == b
  }

  ghost function BlocksBelow(table: Table, h: nat, i: nat, b: nat): nat -> bool {
    (key: nat) => ClusterIs(table, h, i, key) && BlockID(key) < b
  }

  /** The first address of a block. */
  function BlockStart(id: nat, b: nat): (key: nat)
    requires b < CLUSTER_BLOCKS
    ensures ClusterID(key) == id && BlockID(key) == b
  {
    id * CLUSTER_SIZE + b * BLOCK_SIZE
  }

  lemma ListAtStart(table: Table, h: nat, i: nat, b: nat)
    requires TableOK(table) && h < HASH_SIZE && i < |table[h]| && b < CLUSTER_BLOCKS
    ensures |table[h][i].blocks| == CLUSTER_BLOCKS && table[h][i].blocks[b] == BlockList(table, BlockStart(table[h][i].id, b))
  {
    hide HashInt, IndexOf;
  }

  lemma SameBlockStart(table: Table, h: nat, i: nat, b: nat, key: nat)
    requires TableOK(table) && h < HASH_SIZE && i < |table[h]| && b < CLUSTER_BLOCKS
    ensures Block(key) == Block(BlockStart(table[h][i].id, b)) <==> InBlock(table, h, i, b)(key)
  {
    hide HashInt, Block, ClusterID, BlockID;
    var c := table[h][i];
    assert HashInt(c.id) == h && IndexOf(table[h], c.id) == i;
    SameBlock(key, BlockStart(c.id, b));
    assert ClusterIs(table, h, i, key) <==> ClusterID(key) == c.id;
  }

  lemma BlockVisited<V>(table: Table, store: map<EntryId, Entry<V>>, free: seq<EntryId>, poolSize: nat, contents: map<nat, V>,
                        h: nat, i: nat, b: nat, visited: seq<Entry<V>>)
    requires RepOK(table, store, free, poolSize, contents) && h < HASH_SIZE && i < |table[h]| && b < CLUSTER_BLOCKS
    requires var list := BlockList(table, BlockStart(table[h][i].id, b));
             |visited| == |list| && forall n :: 0 <= n < |list| ==> list[n] in store && visited[n] == store[list[n]]
    ensures Exactly(visited, contents, InBlock(table, h, i, b))
  {
    hide HashInt, ClusterID, BlockID, Block, PoolOK, ContentsOK, ListsOK, IndexOf, BlockList, InBlock;
    var start := BlockStart(table[h][i].id, b);
    var list := BlockList(table, start);
    BlockFacts(table, store, free, poolSize, contents, start);
    forall k ensures Block(k) == Block(start) <==> InBlock(table, h, i, b)(k) {
      SameBlockStart(table, h, i, b, k);
    }
    forall n | 0 <= n < |visited|
      ensures visited[n].key in contents && contents[visited[n].key] == visited[n].value && InBlock(table, h, i, b)(visited[n].key)
    {
      assert list[n] in list;
    }
    forall k | k in contents && InBlock(table, h, i, b)(k) ensures exists n :: 0 <= n < |visited| && visited[n].key == k {
      var n :| 0 <= n < |list| && list[n] in store && store[list[n]].key == k;
      assert visited[n].key == k;
    }
  }

  /** A key in the map is in one of the clusters of its chain. */
  lemma KeyHasCluster<V>(table: Table, store: map<EntryId, Entry<V>>, contents: map<nat, V>, key: nat)
    requires TableOK(table) && ContentsOK(table, store, contents) && key in contents
    ensures var h := HashInt(ClusterID(key)); IndexOf(table[h], ClusterID(key)) < |table[h]|
  {
    var e :| Holds(table, store, key, e);
  }

  // ----- FindInside's walk back

  /** No key up to `key` lies in a block after that of `num`. */
  ghost predicate NothingAfter<V>(m: map<nat, V>, num: nat, key: nat) {
    forall k :: k in m && k <= key ==> Block(k) <= Block(num)
  }

  /** `num` is where the walk starts, or the last address of a block the walk was allowed to enter. */
  ghost predicate BlockReached(num: nat, key: nat, maxSize: nat) {
    num == key || (num % BLOCK_SIZE == BLOCK_SIZE - 1 && num <= key && key - num <= maxSize)
  }

  /** No range with its start in the block of `num` contains `key`. */
  ghost predicate NoneInBlock<V>(m: map<nat, V>, size: V -> nat, num: nat, key: nat) {
    forall k :: k in m && Block(k) == Block(num) ==> !Contains(k, size(m[k]), key)
  }

  /** num |= kBlockSize - 1; num -= kBlockSize */
  function PreviousBlockEnd(num: nat): (r: nat)
    requires BlockID(num) != 0
    ensures Block(r) == Block(num) - 1 && ClusterID(r) == ClusterID(num) && r < num && r % BLOCK_SIZE == BLOCK_SIZE - 1
  {
    num / BLOCK_SIZE * BLOCK_SIZE + BLOCK_SIZE - 1 - BLOCK_SIZE
  }

  lemma HitIsHit(num: nat, key: nat, maxSize: nat, start: nat)
    requires BlockReached(num, key, maxSize) && Block(start) == Block(num)
    ensures WithinReach(start, key, maxSize)
  {
  }

  /** A range that starts before the key without containing it hides all ranges before it. */
  lemma SmallerKeyEnds<V(!new)>(m: map<nat, V>, size: V -> nat, maxSize: nat, num: nat, key: nat)
    requires Disjoint(m, size) && NothingAfter(m, num, key) && NoneInBlock(m, size, num, key)
    requires exists k :: k in m && k <= key && Block(k) == Block(num)
    ensures forall start :: !IsHit(m, size, maxSize, key, start)
  {
    var k :| k in m && k <= key && Block(k) == Block(num);
    forall start ensures !IsHit(m, size, maxSize, key, start) {
    }
  }

  /** Beyond the limit there is nothing the search has to find. */
  lemma TooFar<V>(m: map<nat, V>, size: V -> nat, maxSize: nat, num: nat, key: nat)
    requires NothingAfter(m, num, key) && num % BLOCK_SIZE == BLOCK_SIZE - 1 && num <= key && key - num > maxSize
    ensures forall start :: !IsHit(m, size, maxSize, key, start)
  {
  }

  /** No key up to `key` lies in the cluster of `num` or after it. */
  ghost predicate NothingFromCluster<V>(m: map<nat, V>, num: nat, key: nat) {
    forall k :: k in m && k <= key ==> ClusterID(k) < ClusterID(num)
  }

  lemma FirstBlockDone<V>(m: map<nat, V>, num: nat, key: nat)
    requires (forall k :: k in m && k <= key ==> Block(k) < Block(num)) && BlockID(num) == 0
    ensures NothingFromCluster(m, num, key)
  {
    forall k | k in m && k <= key ensures ClusterID(k) < ClusterID(num) {
      BlockParts(k);
      BlockParts(num);
    }
  }

  lemma MissingCluster<V>(table: Table, store: map<EntryId, Entry<V>>, m: map<nat, V>, num: nat, key: nat)
    requires TableOK(table) && ContentsOK(table, store, m) && NothingAfter(m, num, key)
    requires var chain := table[HashInt(ClusterID(num))]; IndexOf(chain, ClusterID(num)) >= |chain|
    ensures NothingFromCluster(m, num, key)
  {
    hide HashInt, Block, ClusterID, TableOK, ContentsOK;
    forall k | k in m && k <= key ensures ClusterID(k) < ClusterID(num) {
      KeyHasCluster(table, store, m, k);
      EarlierCluster(k, num);
    }
  }

  lemma EarlierCluster(k: nat, num: nat)
    requires Block(k) <= Block(num)
    ensures ClusterID(k) <= ClusterID(num)
  {
    BlockParts(k);
    BlockParts(num);
  }

  lemma PreviousCluster<V>(m: map<nat, V>, num: nat, key: nat)
    requires NothingFromCluster(m, num, key) && num >= CLUSTER_SIZE
    ensures var r := num / CLUSTER_SIZE * CLUSTER_SIZE - 1; 0 <= r < num && NothingAfter(m, r, key) && r % BLOCK_SIZE == BLOCK_SIZE - 1
  {
    var r := num / CLUSTER_SIZE * CLUSTER_SIZE - 1;
    assert Block(r) == ClusterID(num) * CLUSTER_BLOCKS - 1;
    forall k | k in m && k <= key ensures Block(k) <= Block(r) {
      hide Block, ClusterID;
      BlockParts(k);
    }
  }

  lemma StartOfWalk<V>(m: map<nat, V>, key: nat)
    ensures NothingAfter(m, key, key)
  {
  }

  lemma NothingLeft<V>(m: map<nat, V>, size: V -> nat, maxSize: nat, num: nat, key: nat)
    requires NothingFromCluster(m, num, key) && num < CLUSTER_SIZE
    ensures forall start :: !IsHit(m, size, maxSize, key, start)
  {
  }

  class AddressMap<V(!new)> {
    var table: Table
    var store: map<EntryId, Entry<V>>
    var free: seq<EntryId>
    var poolSize: nat
    const zero: V
    ghost var contents: map<nat, V>

    ghost predicate Valid()
      reads this
    {
      RepOK(table, store, free, poolSize, contents)
    }

    constructor (zero: V)
      ensures Valid() && contents == map[] && poolSize == 0
    {
      this.zero := zero;
      table := seq(HASH_SIZE, _ => []);
      store := map[];
      free := [];
      poolSize := 0;
      contents := map[];
      new;
      assert forall key :: BlockList(table, key) == [];
    }

    /** The search of FindCluster: the position of the address's cluster in its chain. */
    method Lookup(address: nat) returns (r: Option<nat>)
      requires Valid()
      ensures var chain, id := table[HashInt(ClusterID(address))], ClusterID(address);
              r == if IndexOf(chain, id) < |chain| then Some(IndexOf(chain, id)) else None
    {
      hide HashInt, ClusterID, BlockID, Block, KeysOK, PoolOK, ContentsOK, ListsOK, IndexOf;
      var id := ClusterID(address);
      var h := HashInt(id);
      var i := 0;
      while i < |table[h]|
        invariant 0 <= i <= |table[h]|
        invariant forall j :: 0 <= j < i ==> table[h][j].id != id
      {
        if table[h][i].id == id {
          return Some(i);
        }
        i := i + 1;
      }
      return None;
    }

    /** FindCluster; it creates a missing cluster on request. */
    method FindCluster(address: nat, create: bool) returns (r: Option<nat>)
      requires Valid()
      modifies this`table
      ensures Valid()
      ensures !create ==> table == old(table)
      ensures create ==> r.Some?
      ensures var chain, id := table[HashInt(ClusterID(address))], ClusterID(address);
              r == if IndexOf(chain, id) < |chain| then Some(IndexOf(chain, id)) else None
      ensures forall key :: BlockList(table, key) == old(BlockList(table, key))
    {
      hide HashInt, ClusterID, BlockID, Block, KeysOK, PoolOK, ContentsOK, ListsOK;
      r := Lookup(address);
      if r.None? && create {
        var id := ClusterID(address);
        AddClusterOK(table, id);
        AddClusterKeepsRep(table, AddCluster(table, id), store, free, poolSize, contents);
        table := AddCluster(table, id);
        r := Some(0);
      }
    }

    /** The entry that holds `key`, if there is one. */
    method FindMutable(key: nat) returns (r: Option<EntryId>)
      requires Valid()
      ensures r.Some? <==> key in contents
      ensures r.Some? ==> Holds(table, store, key, r.value) && store[r.value].value == contents[key]
    {
      hide HashInt, ClusterID, BlockID, Block, KeysOK, PoolOK, ContentsOK, ListsOK, IndexOf;
      WalkFacts(table, store, free, poolSize, contents, key);
      var c := Lookup(key);
      if c.Some? {
        var list := table[HashInt(ClusterID(key))][c.value].blocks[BlockID(key)];
        assert list == BlockList(table, key);
        var j := 0;
        while j < |list|
          invariant 0 <= j <= |list|
          invariant forall i :: 0 <= i < j ==> store[list[i]].key != key
        {
          assert list[j] in list;
          if store[list[j]].key == key {
            return Some(list[j]);
          }
          j := j + 1;
        }
      }
      return None;
    }

    method Find(key: nat) returns (r: Option<V>)
      requires Valid()
      ensures r == if key in contents then Some(contents[key]) else None
    {
      hide HashInt, ClusterID, BlockID, Block, KeysOK, PoolOK, ContentsOK, ListsOK, IndexOf;
      var e := FindMutable(key);
      if e.Some? {
        r := Some(store[e.value].value);
      } else {
        r := None;
      }
    }

    /** What a caller of FindMutable does with the pointer it gets. */
    method SetValue(e: EntryId, value: V)
      requires Valid() && e in store && Holds(table, store, store[e].key, e)
      modifies this
      ensures Valid() && contents == old(contents)[old(store[e].key) := value]
      ensures table == old(table) && free == old(free) && poolSize == old(poolSize)
    {
      hide HashInt, ClusterID, BlockID, Block, KeysOK, PoolOK, ContentsOK, ListsOK, IndexOf;
      ghost var key := store[e].key;
      UpdateKeepsRep(table, store, free, poolSize, contents, key, e, value);
      store := store[e := store[e].(value := value)];
      contents := contents[key := value];
    }

    /** Bind the key to the value: in place if it is bound already, else in a cell taken off the free list. */
    method Insert(key: nat, value: V)
      requires Valid()
      modifies this
      ensures Valid() && contents == old(contents)[key := value]
      ensures poolSize == old(poolSize) + if key in old(contents) || old(free) != [] then 0 else ALLOC_COUNT
    {
      hide HashInt, ClusterID, BlockID, Block, KeysOK, PoolOK, ContentsOK, ListsOK, IndexOf;
      var c := FindCluster(key, true);
      var e := FindMutable(key);
      if e.Some? {
        SetValue(e.value, value);
        return;
      }
      if free == [] {
        Refill();
      }
      var cell := free[0];
      var h, b := HashInt(ClusterID(key)), BlockID(key);
      ghost var list := BlockList(table, key);
      assert table[h][c.value].blocks[b] == list;
      SetListOK(table, key, c.value, [cell] + list);
      LinkKeepsRep(table, SetList(table, key, c.value, [cell] + list), store, free, poolSize, contents, key, value);
      store := store[cell := Entry(key, value)];
      table := SetList(table, key, c.value, [cell] + table[h][c.value].blocks[b]);
      free := free[1..];
      contents := contents[key := value];
    }

    /** A new batch of zeroed entries goes onto the empty free list. */
    method Refill()
      requires Valid() && free == []
      modifies this`store, this`free, this`poolSize
      ensures Valid() && free != [] && poolSize == old(poolSize) + ALLOC_COUNT
    {
      hide HashInt, ClusterID, BlockID, Block, KeysOK, ContentsOK, ListsOK, IndexOf;
      ghost var store0 := store;
      var i := 0;
      var grown: map<EntryId, Entry<V>> := store;
      while i < ALLOC_COUNT
        invariant 0 <= i <= ALLOC_COUNT
        invariant forall e: EntryId :: e in grown <==> e in store0 || poolSize <= e < poolSize + i
        invariant forall e :: e in store0 ==> grown[e] == store0[e]
      {
        var cell: EntryId := poolSize + i;
        grown := grown[cell := Entry(0, zero)];
        i := i + 1;
      }
      BatchKeepsRep(table, store, grown, poolSize, contents);
      store := grown;
      free := Batch(poolSize);
      poolSize := poolSize + ALLOC_COUNT;
    }

    /** Unbind the key and hand back what it was bound to, if anything; the cell can be used again. */
    method FindAndRemove(key: nat) returns (r: Option<V>)
      requires Valid()
      modifies this
      ensures Valid() && contents == old(contents) - {key}
      ensures r == if key in old(contents) then Some(old(contents)[key]) else None
      ensures poolSize == old(poolSize) && |free| == |old(free)| + if r.Some? then 1 else 0
    {
      hide HashInt, ClusterID, BlockID, Block, KeysOK, PoolOK, ContentsOK, ListsOK, IndexOf;
      WalkFacts(table, store, free, poolSize, contents, key);
      var c := Lookup(key);
      r := None;
      if c.Some? {
        var h, b := HashInt(ClusterID(key)), BlockID(key);
        var list := table[h][c.value].blocks[b];
        assert list == BlockList(table, key);
        var j := 0;
        while j < |list|
          invariant 0 <= j <= |list|
          invariant forall i :: 0 <= i < j ==> store[list[i]].key != key
        {
          assert list[j] in list;
          if store[list[j]].key == key {
            var e := list[j];
            assert Holds(table, store, key, e);
            r := Some(store[e].value);
            var shorter := list[..j] + list[j + 1..];
            SetListOK(table, key, c.value, shorter);
            UnlinkKeepsRep(table, SetList(table, key, c.value, shorter), store, free, poolSize, contents, key, j);
            table := SetList(table, key, c.value, shorter);
            free := [e] + free;
            contents := contents - {key};
            return;
          }
          j := j + 1;
        }
      }
      assert key !in contents;
      assert contents - {key} == contents;
    }

    /** One block of FindInside: the range in the block of `num` that contains `key`, and whether one starts before it. */
    method SearchBlock(size: V -> nat, c: nat, num: nat, key: nat) returns (hit: Option<nat>, smaller: bool)
      requires Valid()
      requires var chain := table[HashInt(ClusterID(num))]; c < |chain| && IndexOf(chain, ClusterID(num)) == c
      ensures hit.Some? ==> hit.value in contents && Block(hit.value) == Block(num) && Contains(hit.value, size(contents[hit.value]), key)
      ensures hit.None? ==> NoneInBlock(contents, size, num, key)
      ensures hit.None? ==> (smaller <==> exists k :: k in contents && k <= key && Block(k) == Block(num))
    {
      hide HashInt, ClusterID, BlockID, Block, KeysOK, PoolOK, ContentsOK, ListsOK, IndexOf;
      var list := table[HashInt(ClusterID(num))][c].blocks[BlockID(num)];
      assert list == BlockList(table, num);
      BlockFacts(table, store, free, poolSize, contents, num);
      smaller := false;
      var j := 0;
      while j < |list|
        invariant 0 <= j <= |list|
        invariant forall i :: 0 <= i < j ==> !Contains(store[list[i]].key, size(store[list[i]].value), key)
        invariant smaller <==> exists i :: 0 <= i < j && store[list[i]].key <= key
      {
        var e := store[list[j]];
        assert list[j] in list;
        if e.key <= key {
          if e.key == key || key < e.key + size(e.value) {
            return Some(e.key), smaller;
          }
          smaller := true;
        }
        j := j + 1;
      }
      hit := None;
    }

    /**
     The range into which `key` points, found by walking back block by block and cluster by
     cluster.  It is found exactly if its block lies within the walk's limit.
     */
    method FindInside(size: V -> nat, maxSize: nat, key: nat) returns (r: Option<nat>)
      requires Valid() && Disjoint(contents, size)
      ensures r.Some? ==> IsHit(contents, size, maxSize, key, r.value)
      ensures r.None? ==> forall start :: !IsHit(contents, size, maxSize, key, start)
    {
      hide HashInt, KeysOK, PoolOK, ContentsOK, ListsOK, IndexOf, BlockID, Block, Contains, BlockList, WithinReach;
      StartOfWalk(contents, key);
      var num: nat := key;
      while true
        invariant num <= key && NothingAfter(contents, num, key) && BlockReached(num, key, maxSize)
        decreases num
      {
        var c := Lookup(num);
        if c.Some? {
          ghost var top := num;
          while true
            invariant num <= top && ClusterID(num) == ClusterID(top)
            invariant num <= key && NothingAfter(contents, num, key) && BlockReached(num, key, maxSize)
            decreases num
          {
            var hit, smaller := SearchBlock(size, c.value, num, key);
            if hit.Some? {
              HitIsHit(num, key, maxSize, hit.value);
              return hit;
            }
            if smaller {
              SmallerKeyEnds(contents, size, maxSize, num, key);
              return None;
            }
            if BlockID(num) == 0 {
              FirstBlockDone(contents, num, key);
              break;
            }
            num := PreviousBlockEnd(num);
            if key - num > maxSize {
              TooFar(contents, size, maxSize, num, key);
              return None;
            }
          }
        } else {
          MissingCluster(table, store, contents, num, key);
        }
        if num < CLUSTER_SIZE {
          NothingLeft(contents, size, maxSize, num, key);
          return None;
        }
        PreviousCluster(contents, num, key);
        num := num / CLUSTER_SIZE * CLUSTER_SIZE - 1;
        if key - num > maxSize {
          TooFar(contents, size, maxSize, num, key);
          return None;
        }
      }
    }

    /** The pairs in one block. */
    method VisitBlock(h: nat, i: nat, b: nat) returns (visited: seq<Entry<V>>)
      requires Valid() && h < HASH_SIZE && i < |table[h]| && b < CLUSTER_BLOCKS
      ensures Exactly(visited, contents, InBlock(table, h, i, b))
    {
      hide HashInt, ClusterID, BlockID, Block, KeysOK, PoolOK, ContentsOK, ListsOK, IndexOf, BlockList, Exactly, InBlock;
      ListAtStart(table, h, i, b);
      BlockFacts(table, store, free, poolSize, contents, BlockStart(table[h][i].id, b));
      var list := table[h][i].blocks[b];
      visited := [];
      var j := 0;
      while j < |list|
        invariant 0 <= j <= |list|
        invariant |visited| == j && forall n :: 0 <= n < j ==> list[n] in store && visited[n] == store[list[n]]
      {
        assert list[j] in list;
        visited := visited + [store[list[j]]];
        j := j + 1;
      }
      BlockVisited(table, store, free, poolSize, contents, h, i, b, visited);
    }

    method VisitCluster(h: nat, i: nat) returns (visited: seq<Entry<V>>)
      requires Valid() && h < HASH_SIZE && i < |table[h]|
      ensures Exactly(visited, contents, InCluster(table, h, i))
    {
      hide HashInt, ClusterID, BlockID, RepOK, IndexOf;
      assert forall k: nat :: !BlocksBelow(table, h, i, 0)(k);
      visited := [];
      var b := 0;
      while b < CLUSTER_BLOCKS
        invariant 0 <= b <= CLUSTER_BLOCKS
        invariant Exactly(visited, contents, BlocksBelow(table, h, i, b))
      {
        var more := VisitBlock(h, i, b);
        ExactlyConcat(visited, more, contents, BlocksBelow(table, h, i, b),
                      InBlock(table, h, i, b), BlocksBelow(table, h, i, b + 1));
        visited := visited + more;
        b := b + 1;
      }
    }

    method VisitChain(h: nat) returns (visited: seq<Entry<V>>)
      requires Valid() && h < HASH_SIZE
      ensures Exactly(visited, contents, InChain(h))
    {
      hide HashInt, ClusterID, ListsOK, KeysOK, PoolOK, ContentsOK, IndexOf;
      assert forall k: nat :: !ClustersBelow(table, h, 0)(k);
      visited := [];
      var i := 0;
      while i < |table[h]|
        invariant 0 <= i <= |table[h]|
        invariant Exactly(visited, contents, ClustersBelow(table, h, i))
      {
        var more := VisitCluster(h, i);
        ExactlyConcat(visited, more, contents, ClustersBelow(table, h, i), InCluster(table, h, i), ClustersBelow(table, h, i + 1));
        visited := visited + more;
        i := i + 1;
      }
      forall k | k in contents ensures InChain(h)(k) <==> ClustersBelow(table, h, i)(k) {
        KeyHasCluster(table, store, contents, k);
      }
    }

    /** Iterate: every stored pair is handed out exactly once. */
    method Iterate() returns (visited: seq<Entry<V>>)
      requires Valid()
      ensures Exactly(visited, contents, AllKeys())
    {
      hide HashInt, ClusterID, RepOK;
      visited := [];
      var h := 0;
      while h < HASH_SIZE
        invariant 0 <= h <= HASH_SIZE
        invariant Exactly(visited, contents, ChainsBelow(h))
      {
        var more := VisitChain(h);
        ExactlyConcat(visited, more, contents, ChainsBelow(h), InChain(h), ChainsBelow(h + 1));
        visited := visited + more;
        h := h + 1;
      }
    }
  }
}
