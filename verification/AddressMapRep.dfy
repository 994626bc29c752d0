/**
 AddressMap: a hash table of clusters, each an array of blocks, each a list of entries
 drawn from a pool that recycles removed ones.  It is proved to be a plain map, and its
 backward search FindInside to be a search over all ranges.

 Linked lists are sequences of the entries (or clusters) they link; an entry is a number
 that names its cell in `store`.
 */
module AddressMapRep {
  import opened Base

  type EntryId = nat

  const BLOCK_SIZE := 128            // 1 << kBlockBits
  const CLUSTER_BLOCKS := 8192       // 1 << kClusterBits
  const CLUSTER_SIZE := 1048576      // 1 << (kBlockBits + kClusterBits)
  const HASH_SIZE := 4096
  const ALLOC_COUNT := 64

  datatype Entry<V> = Entry(key: nat, value: V)

  datatype Cluster = Cluster(id: nat, blocks: seq<seq<EntryId>>)

  /** Multiplicative hash: the top 12 of the low 32 bits of a product. */
  function HashInt(x: nat): (h: nat)
    ensures h < HASH_SIZE
  {
    x % 0x1_0000_0000 * 2654435769 % 0x1_0000_0000 / 0x10_0000
  }

  function ClusterID(key: nat): nat {
    key / CLUSTER_SIZE
  }

  function BlockID(key: nat): (b: nat)
    ensures b < CLUSTER_BLOCKS
  {
    key / BLOCK_SIZE % CLUSTER_BLOCKS
  }

  /** Blocks numbered through the whole address space. */
  function Block(key: nat): nat {
    key / BLOCK_SIZE
  }

  lemma BlockParts(key: nat)
    ensures Block(key) == ClusterID(key) * CLUSTER_BLOCKS + BlockID(key)
  {
  }

  /** A key's block is determined by its cluster and its block within it. */
  lemma SameBlock(x: nat, y: nat)
    ensures Block(x) == Block(y) <==> ClusterID(x) == ClusterID(y) && BlockID(x) == BlockID(y)
  {
    BlockParts(x);
    BlockParts(y);
  }

  // ----- ranges

  /** "key" points into the range of `size` bytes at `start`, or at its start. */
  predicate Contains(start: nat, size: nat, key: nat) {
    start == key || start <= key < start + size
  }

  /** No two of the ranges that start at the keys overlap. */
  ghost predicate Disjoint<V(!new)>(m: map<nat, V>, size: V -> nat) {
    forall x, y :: x in m && y in m && x < y ==> x + size(m[x]) <= y
  }

  /** The walk back from `key` with this limit gets as far as the block of `start`. */
  predicate WithinReach(start: nat, key: nat, maxSize: nat) {
    Block(start) == Block(key) || key - (Block(start) * BLOCK_SIZE + BLOCK_SIZE - 1) <= maxSize
  }

  /** What FindInside looks for. */
  ghost predicate IsHit<V>(m: map<nat, V>, size: V -> nat, maxSize: nat, key: nat, start: nat) {
    start in m && Contains(start, size(m[start]), key) && WithinReach(start, key, maxSize)
  }

  lemma AtMostOneHit<V(!new)>(m: map<nat, V>, size: V -> nat, maxSize: nat, key: nat, x: nat, y: nat)
    requires Disjoint(m, size) && IsHit(m, size, maxSize, key, x) && IsHit(m, size, maxSize, key, y)
    ensures x == y
  {
  }

  /** A range that contains the key no further than `maxSize` from its start is within reach. */
  lemma SmallOffsetReached(start: nat, key: nat, maxSize: nat)
    requires start <= key && key - start <= maxSize
    ensures WithinReach(start, key, maxSize)
  {
  }

  // ----- the representation

  /** Index of the cluster with this id in a hash chain, or the chain's length. */
  function IndexOf(chain: seq<Cluster>, id: nat): (i: nat)
    ensures i <= |chain|
    ensures i < |chain| ==> chain[i].id == id
    ensures forall j :: 0 <= j < i ==> chain[j].id != id
  {
    if chain == [] then 0
    else if chain[0].id == id then 0
    else 1 + IndexOf(chain[1..], id)
  }

  type Table = seq<seq<Cluster>>

  ghost predicate TableOK(table: Table) {
    && |table| == HASH_SIZE
    && forall h, i :: 0 <= h < HASH_SIZE && 0 <= i < |table[h]| ==>
         && HashInt(table[h][i].id) == h
         && |table[h][i].blocks| == CLUSTER_BLOCKS
         && IndexOf(table[h], table[h][i].id) == i
  }

  /** The entries linked in the block that `key` belongs to. */
  ghost function BlockList(table: Table, key: nat): seq<EntryId>
    requires TableOK(table)
  {
    var chain := table[HashInt(ClusterID(key))];
    var i := IndexOf(chain, ClusterID(key));
    if i < |chain| then chain[i].blocks[BlockID(key)] else []
  }

  /** Every linked entry is in the block of its key. */
  ghost predicate ListsOK<V>(table: Table, store: map<EntryId, Entry<V>>)
    requires TableOK(table)
  {
    forall key, e :: e in BlockList(table, key) ==> e in store && Block(store[e].key) == Block(key)
  }

  /** No key is linked twice. */
  ghost predicate KeysOK<V>(table: Table, store: map<EntryId, Entry<V>>)
    requires TableOK(table)
  {
    forall key, i, j :: 0 <= i < j < |BlockList(table, key)| && BlockList(table, key)[i] in store && BlockList(table, key)[j] in store ==>
      store[BlockList(table, key)[i]].key != store[BlockList(table, key)[j]].key
  }

  /** The entries ever allocated are exactly those linked in a block plus those on the free list. */
  ghost predicate PoolOK<V>(table: Table, store: map<EntryId, Entry<V>>, free: seq<EntryId>, poolSize: nat)
    requires TableOK(table)
  {
    && NoDup(free)
    && (forall e :: e in store <==> 0 <= e < poolSize)
    && (forall e :: e in free ==> e in store)
    && (forall e :: e in store ==> (e in free <==> e !in BlockList(table, store[e].key)))
  }

  /** Entry `e` is linked and holds `key`. */
  ghost predicate Holds<V>(table: Table, store: map<EntryId, Entry<V>>, key: nat, e: EntryId)
    requires TableOK(table)
  {
    e in BlockList(table, key) && e in store && store[e].key == key
  }

  ghost predicate ContentsOK<V>(table: Table, store: map<EntryId, Entry<V>>, contents: map<nat, V>)
    requires TableOK(table)
  {
    && (forall key, e :: Holds(table, store, key, e) ==> key in contents && contents[key] == store[e].value)
    && (forall key :: key in contents ==> exists e :: Holds(table, store, key, e))
  }

  ghost predicate RepOK<V>(table: Table, store: map<EntryId, Entry<V>>, free: seq<EntryId>, poolSize: nat, contents: map<nat, V>) {
    && TableOK(table)
    && ListsOK(table, store)
    && KeysOK(table, store)
    && PoolOK(table, store, free, poolSize)
    && ContentsOK(table, store, contents)
  }

  lemma SameBlockList(table: Table, x: nat, y: nat)
    requires TableOK(table) && Block(x) == Block(y)
    ensures BlockList(table, x) == BlockList(table, y)
  {
    SameBlock(x, y);
  }

  // ----- how an operation changes the lists

  /** `table` with an empty cluster at the front of its chain. */
  function AddCluster(table: Table, id: nat): Table
    requires |table| == HASH_SIZE
  {
    var h := HashInt(id);
    table[h := [Cluster(id, seq(CLUSTER_BLOCKS, _ => []))] + table[h]]
  }

  lemma AddClusterOK(table: Table, id: nat)
    requires TableOK(table) && IndexOf(table[HashInt(id)], id) == |table[HashInt(id)]|
    ensures TableOK(AddCluster(table, id))
    ensures forall key :: BlockList(AddCluster(table, id), key) == BlockList(table, key)
  {
    hide HashInt;
    var h := HashInt(id);
    var table' := AddCluster(table, id);
    assert table'[h][1..] == table[h];
    forall j | 0 <= j < |table[h]| ensures IndexOf(table'[h], table[h][j].id) == j + 1 {
    }
    forall i | 0 <= i < |table'[h]|
      ensures HashInt(table'[h][i].id) == h && |table'[h][i].blocks| == CLUSTER_BLOCKS && IndexOf(table'[h], table'[h][i].id) == i
    {
      if i > 0 {
        assert table'[h][i] == table[h][i - 1];
      }
    }
    forall key: nat ensures BlockList(table', key) == BlockList(table, key) {
      AddClusterList(table, id, key);
    }
  }

  lemma AddClusterList(table: Table, id: nat, key: nat)
    requires TableOK(table) && IndexOf(table[HashInt(id)], id) == |table[HashInt(id)]|
    ensures BlockList(AddCluster(table, id), key) == BlockList(table, key)
  {
    hide HashInt, BlockID, ClusterID;
    assert AddCluster(table, id)[HashInt(id)][1..] == table[HashInt(id)];
  }

  /** `table` with another list in the block of `key`, whose cluster is number `i` of its chain. */
  function SetList(table: Table, key: nat, i: nat, list: seq<EntryId>): Table
    requires |table| == HASH_SIZE
    requires i < |table[HashInt(ClusterID(key))]| && |table[HashInt(ClusterID(key))][i].blocks| == CLUSTER_BLOCKS
  {
    var h := HashInt(ClusterID(key));
    var c := table[h][i];
    table[h := table[h][i := c.(blocks := c.blocks[BlockID(key) := list])]]
  }

  lemma IndexOfUpdate(chain: seq<Cluster>, i: nat, c: Cluster, id: nat)
    requires i < |chain| && c.id == chain[i].id
    ensures IndexOf(chain[i := c], id) == IndexOf(chain, id)
  {
    if i > 0 {
      assert chain[i := c][1..] == chain[1..][i - 1 := c];
      IndexOfUpdate(chain[1..], i - 1, c, id);
    } else {
      assert chain[i := c][1..] == chain[1..];
    }
  }

  lemma SetListOK(table: Table, key: nat, i: nat, list: seq<EntryId>)
    requires TableOK(table) && i < |table[HashInt(ClusterID(key))]| && table[HashInt(ClusterID(key))][i].id == ClusterID(key)
    ensures TableOK(SetList(table, key, i, list))
    ensures forall k :: BlockList(SetList(table, key, i, list), k) == if Block(k) == Block(key) then list else BlockList(table, k)
  {
    var h := HashInt(ClusterID(key));
    var c := table[h][i].(blocks := table[h][i].blocks[BlockID(key) := list]);
    var table' := SetList(table, key, i, list);
    assert table'[h] == table[h][i := c];
    forall id ensures IndexOf(table'[h], id) == IndexOf(table[h], id) {
      IndexOfUpdate(table[h], i, c, id);
    }
    forall k ensures BlockList(table', k) == if Block(k) == Block(key) then list else BlockList(table, k) {
      SameBlock(k, key);
    }
  }

  /** The lists of `table'` are those of `table` except in the block of `key`. */
  ghost predicate ListChanged(table: Table, table': Table, key: nat, list: seq<EntryId>)
    requires TableOK(table) && TableOK(table')
  {
    forall k :: BlockList(table', k) == if Block(k) == Block(key) then list else BlockList(table, k)
  }

  lemma AddClusterKeepsRep<V>(table: Table, table': Table, store: map<EntryId, Entry<V>>, free: seq<EntryId>, poolSize: nat,
                              contents: map<nat, V>)
    requires RepOK(table, store, free, poolSize, contents) && TableOK(table')
    requires forall key :: BlockList(table', key) == BlockList(table, key)
    ensures RepOK(table', store, free, poolSize, contents)
  {
    hide BlockList, TableOK, Block;
    assert forall key, e :: Holds(table', store, key, e) <==> Holds(table, store, key, e);
  }

  /** A batch of ALLOC_COUNT fresh entries, linked in order. */
  function Batch(poolSize: nat): (ids: seq<EntryId>)
    ensures |ids| == ALLOC_COUNT && forall i :: 0 <= i < ALLOC_COUNT ==> ids[i] == poolSize + i
  {
    seq(ALLOC_COUNT, i requires 0 <= i => poolSize + i)
  }

  ghost predicate IsFresh(poolSize: nat, e: EntryId) {
    poolSize <= e < poolSize + ALLOC_COUNT
  }

  lemma BatchKeepsRep<V>(table: Table, store: map<EntryId, Entry<V>>, store': map<EntryId, Entry<V>>, poolSize: nat, contents: map<nat, V>)
    requires RepOK(table, store, [], poolSize, contents)
    requires forall e :: e in store' <==> e in store || IsFresh(poolSize, e)
    requires forall e :: e in store ==> store'[e] == store[e]
    ensures RepOK(table, store', Batch(poolSize), poolSize + ALLOC_COUNT, contents)
  {
    hide BlockList, TableOK, Block;
    assert forall e: EntryId :: e in Batch(poolSize) <==> IsFresh(poolSize, e) by {
      forall e: EntryId | IsFresh(poolSize, e) ensures e in Batch(poolSize) {
        assert Batch(poolSize)[e - poolSize] == e;
      }
    }
    assert forall key, e :: Holds(table, store', key, e) <==> Holds(table, store, key, e);
    forall e | e in store' ensures e in Batch(poolSize) <==> e !in BlockList(table, store'[e].key) {
    }
  }

  lemma UpdateKeepsRep<V>(table: Table, store: map<EntryId, Entry<V>>, free: seq<EntryId>, poolSize: nat, contents: map<nat, V>,
                          key: nat, e: EntryId, value: V)
    requires RepOK(table, store, free, poolSize, contents) && Holds(table, store, key, e)
    ensures RepOK(table, store[e := Entry(key, value)], free, poolSize, contents[key := value])
  {
    hide BlockList, TableOK, Block;
    var store' := store[e := Entry(key, value)];
    forall k, d ensures Holds(table, store', k, d) <==> Holds(table, store, k, d) {
    }
    forall d | Holds(table, store, key, d) ensures d == e {
      HeldOnce(table, store, key, d, e);
    }
  }

  lemma HeldOnce<V>(table: Table, store: map<EntryId, Entry<V>>, key: nat, d: EntryId, e: EntryId)
    requires TableOK(table) && KeysOK(table, store) && Holds(table, store, key, d) && Holds(table, store, key, e)
    ensures d == e
  {
    var list := BlockList(table, key);
    var i :| 0 <= i < |list| && list[i] == d;
    var j :| 0 <= j < |list| && list[j] == e;
  }

  lemma LinkKeepsRep<V>(table: Table, table': Table, store: map<EntryId, Entry<V>>, free: seq<EntryId>, poolSize: nat,
                        contents: map<nat, V>,
                        key: nat, value: V)
    requires RepOK(table, store, free, poolSize, contents) && free != [] && key !in contents
    requires TableOK(table') && ListChanged(table, table', key, [free[0]] + BlockList(table, key))
    ensures RepOK(table', store[free[0] := Entry(key, value)], free[1..], poolSize, contents[key := value])
  {
    hide BlockList, TableOK, Block;
    var e, list := free[0], BlockList(table, key);
    var store' := store[e := Entry(key, value)];
    assert free == [e] + free[1..] && e !in free[1..];
    forall k ensures e !in BlockList(table, k) {
      if e in BlockList(table, k) {
        assert Block(store[e].key) == Block(k);
        OneList(table, store[e].key, k);
        assert false;
      }
    }
    LinkHolds(table, table', store, contents, key, e, value);
    LinkKeys(table, table', store, contents, key, e, value);
    LinkPool(table, table', store, free, poolSize, key, value);
  }

  lemma LinkPool<V>(table: Table, table': Table, store: map<EntryId, Entry<V>>, free: seq<EntryId>, poolSize: nat, key: nat, value: V)
    requires TableOK(table) && TableOK(table') && PoolOK(table, store, free, poolSize) && free != []
    requires ListChanged(table, table', key, [free[0]] + BlockList(table, key))
    ensures PoolOK(table', store[free[0] := Entry(key, value)], free[1..], poolSize)
  {
    hide BlockList, TableOK, Block;
    var e := free[0];
    var store' := store[e := Entry(key, value)];
    assert free == [e] + free[1..] && e !in free[1..];
    assert e in store && forall d :: d in store' <==> d in store;
    assert NoDup(free[1..]);
    forall d | d in store' ensures d in free[1..] <==> d !in BlockList(table', store'[d].key) {
      if d == e {
        assert e in [e] + BlockList(table, key);
      } else if Block(store[d].key) == Block(key) {
        OneList(table, store[d].key, key);
      }
    }
  }

  lemma OneList(table: Table, x: nat, y: nat)
    requires TableOK(table) && Block(x) == Block(y)
    ensures BlockList(table, x) == BlockList(table, y)
  {
    SameBlockList(table, x, y);
  }

  lemma LinkHolds<V>(table: Table, table': Table, store: map<EntryId, Entry<V>>, contents: map<nat, V>, key: nat, e: EntryId, value: V)
    requires TableOK(table) && TableOK(table') && ListsOK(table, store) && ContentsOK(table, store, contents) && key !in contents
    requires ListChanged(table, table', key, [e] + BlockList(table, key)) && forall k :: e !in BlockList(table, k)
    ensures ListsOK(table', store[e := Entry(key, value)]) && ContentsOK(table', store[e := Entry(key, value)], contents[key := value])
  {
    hide BlockList, TableOK, Block;
    var store' := store[e := Entry(key, value)];
    forall k | Block(k) == Block(key) ensures BlockList(table, k) == BlockList(table, key) {
      OneList(table, k, key);
    }
    forall k, d ensures Holds(table', store', k, d) <==> Holds(table, store, k, d) || (k == key && d == e) {
    }
    var contents' := contents[key := value];
    forall k | k in contents' ensures exists d :: Holds(table', store', k, d) {
      if k != key {
        var d :| Holds(table, store, k, d);
        assert Holds(table', store', k, d);
      } else {
        assert Holds(table', store', key, e);
      }
    }
  }

  lemma LinkKeys<V>(table: Table, table': Table, store: map<EntryId, Entry<V>>, contents: map<nat, V>, key: nat, e: EntryId, value: V)
    requires TableOK(table) && TableOK(table') && ListsOK(table, store) && KeysOK(table, store)
    requires ContentsOK(table, store, contents) && key !in contents
    requires ListChanged(table, table', key, [e] + BlockList(table, key)) && forall k :: e !in BlockList(table, k)
    ensures KeysOK(table', store[e := Entry(key, value)])
  {
    hide BlockList, TableOK, Block;
    var store' := store[e := Entry(key, value)];
    forall k, i, j | 0 <= i < j < |BlockList(table', k)| && BlockList(table', k)[i] in store' && BlockList(table', k)[j] in store'
      ensures store'[BlockList(table', k)[i]].key != store'[BlockList(table', k)[j]].key
    {
      if Block(k) == Block(key) {
        var list := BlockList(table, key);
        assert BlockList(table', k) == [e] + list;
        var d := list[j - 1];
        assert d in list && d != e;
        if i == 0 {
          assert !Holds(table, store, key, d);
        } else {
          assert list[i - 1] in list && list[i - 1] in store && d in store;
        }
      } else {
        var list := BlockList(table, k);
        assert list[i] in list && list[j] in list;
      }
    }
  }

  lemma UnlinkKeepsRep<V>(table: Table, table': Table, store: map<EntryId, Entry<V>>, free: seq<EntryId>, poolSize: nat,
                          contents: map<nat, V>,
                          key: nat, n: nat)
    requires RepOK(table, store, free, poolSize, contents)
    requires n < |BlockList(table, key)| && Holds(table, store, key, BlockList(table, key)[n])
    requires TableOK(table') && ListChanged(table, table', key, BlockList(table, key)[..n] + BlockList(table, key)[n + 1..])
    ensures RepOK(table', store, [BlockList(table, key)[n]] + free, poolSize, contents - {key})
  {
    hide BlockList, TableOK, Block;
    var list := BlockList(table, key);
    var e := list[n];
    var list' := list[..n] + list[n + 1..];
    assert NoDup(list) by {
      forall i, j | 0 <= i < j < |list| ensures list[i] != list[j] {
        assert list[i] in list && list[j] in list;
      }
    }
    RemoveAt(list, n);
    UnlinkHolds(table, table', store, contents, key, e, list');
    UnlinkKeys(table, table', store, key, n);
    UnlinkPool(table, table', store, free, poolSize, key, e, list');
  }

  lemma UnlinkPool<V>(table: Table, table': Table, store: map<EntryId, Entry<V>>, free: seq<EntryId>, poolSize: nat, key: nat,
                      e: EntryId, list': seq<EntryId>)
    requires TableOK(table) && TableOK(table') && PoolOK(table, store, free, poolSize) && Holds(table, store, key, e)
    requires ListChanged(table, table', key, list') && forall d :: d in list' <==> d in BlockList(table, key) && d != e
    ensures PoolOK(table', store, [e] + free, poolSize)
  {
    hide BlockList, TableOK, Block;
    assert e !in free;
    forall d | d in store ensures d in [e] + free <==> d !in BlockList(table', store[d].key) {
      if Block(store[d].key) == Block(key) {
        OneList(table, store[d].key, key);
      }
    }
  }

  lemma RemoveAt(list: seq<EntryId>, n: nat)
    requires NoDup(list) && n < |list|
    ensures forall d :: d in list[..n] + list[n + 1..] <==> d in list && d != list[n]
  {
    var list' := list[..n] + list[n + 1..];
    forall d | d in list && d != list[n] ensures d in list' {
      var i :| 0 <= i < |list| && list[i] == d;
      assert d == list'[if i < n then i else i - 1];
    }
  }

  lemma UnlinkHolds<V>(table: Table, table': Table, store: map<EntryId, Entry<V>>, contents: map<nat, V>, key: nat, e: EntryId,
                       list': seq<EntryId>)
    requires TableOK(table) && TableOK(table') && ListsOK(table, store) && KeysOK(table, store) && ContentsOK(table, store, contents)
    requires Holds(table, store, key, e) && ListChanged(table, table', key, list')
    requires forall d :: d in list' <==> d in BlockList(table, key) && d != e
    ensures ListsOK(table', store) && ContentsOK(table', store, contents - {key})
  {
    hide BlockList, TableOK, Block;
    forall k | Block(k) == Block(key) ensures BlockList(table, k) == BlockList(table, key) {
      OneList(table, k, key);
    }
    forall k, d ensures Holds(table', store, k, d) <==> Holds(table, store, k, d) && d != e {
      if Holds(table, store, k, d) && d == e {
        assert k == key;
      }
    }
    forall k, d | Holds(table', store, k, d) ensures k != key {
      if k == key {
        HeldOnce(table, store, key, d, e);
        assert false;
      }
    }
    forall k | k in contents - {key} ensures exists d :: Holds(table', store, k, d) {
      var d :| Holds(table, store, k, d);
      assert Holds(table', store, k, d);
    }
  }

  lemma UnlinkKeys<V>(table: Table, table': Table, store: map<EntryId, Entry<V>>, key: nat, n: nat)
    requires TableOK(table) && TableOK(table') && KeysOK(table, store) && n < |BlockList(table, key)|
    requires ListChanged(table, table', key, BlockList(table, key)[..n] + BlockList(table, key)[n + 1..])
    ensures KeysOK(table', store)
  {
    hide BlockList, TableOK, Block;
    var list := BlockList(table, key);
    forall k, i, j | 0 <= i < j < |BlockList(table', k)| && BlockList(table', k)[i] in store && BlockList(table', k)[j] in store
      ensures store[BlockList(table', k)[i]].key != store[BlockList(table', k)[j]].key
    {
      if Block(k) == Block(key) {
        var i0, j0 := if i < n then i else i + 1, if j < n then j else j + 1;
        assert BlockList(table', k)[i] == list[i0] && BlockList(table', k)[j] == list[j0];
      } else {
        assert BlockList(table', k) == BlockList(table, k);
      }
    }
  }

  /** What a walk along the block list of `key` finds. */
  lemma WalkFacts<V>(table: Table, store: map<EntryId, Entry<V>>, free: seq<EntryId>, poolSize: nat, contents: map<nat, V>, key: nat)
    requires RepOK(table, store, free, poolSize, contents)
    ensures forall e :: e in BlockList(table, key) ==> e in store
    ensures key in contents ==> exists e :: e in BlockList(table, key) && e in store && store[e].key == key
    ensures forall e :: e in BlockList(table, key) && e in store && store[e].key == key ==>
          key in contents && contents[key] == store[e].value
  {
    hide BlockList, TableOK, Block;
    if key in contents {
      var e :| Holds(table, store, key, e);
    }
  }

  /** The keys in the block of `num` are those of the entries on its list. */
  lemma BlockFacts<V>(table: Table, store: map<EntryId, Entry<V>>, free: seq<EntryId>, poolSize: nat, contents: map<nat, V>, num: nat)
    requires RepOK(table, store, free, poolSize, contents)
    ensures forall e :: e in BlockList(table, num) ==>
              e in store && Block(store[e].key) == Block(num) && store[e].key in contents && contents[store[e].key] == store[e].value
    ensures forall k :: k in contents && Block(k) == Block(num) ==>
              exists i :: 0 <= i < |BlockList(table, num)| && BlockList(table, num)[i] in store && store[BlockList(table, num)[i]].key == k
  {
    hide BlockList, TableOK, Block;
    forall e | e in BlockList(table, num) ensures e in store && store[e].key in contents && contents[store[e].key] == store[e].value {
      OneList(table, store[e].key, num);
      assert Holds(table, store, store[e].key, e);
    }
    forall k | k in contents && Block(k) == Block(num)
      ensures exists i :: 0 <= i < |BlockList(table, num)| && BlockList(table, num)[i] in store && store[BlockList(table, num)[i]].key == k
    {
      var e :| Holds(table, store, k, e);
      OneList(table, k, num);
      assert e in BlockList(table, num);
    }
  }
}
