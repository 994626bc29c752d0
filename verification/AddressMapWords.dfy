/**
 The entries of an AddressMap in memory: every entry has one `next` word, which belongs to the
 list of its block while it is in use and to the free list otherwise.  Blocks and the free list
 are heads of such lists.
 */
module AddressMapWords {
  import opened Base
  import opened AddressMapRep
  import opened CentralMemory

  /** Where an entry lies; NULL is no entry's place. */
  function Place(e: EntryId): nat {
    e + 1
  }

  function Places(ids: seq<EntryId>): (r: seq<nat>)
    ensures |r| == |ids| && forall i :: 0 <= i < |ids| ==> r[i] == Place(ids[i])
  {
    seq(|ids|, i requires 0 <= i < |ids| => Place(ids[i]))
  }

  function HeadOf(heads: map<nat, nat>, block: nat): nat {
    if block in heads then heads[block] else NULL
  }

  /** Blocks and free list as the words show them. */
  ghost predicate Shown(next: Words, heads: map<nat, nat>, freeHead: nat, table: Table, free: seq<EntryId>)
    requires TableOK(table)
  {
    && IsList(next, freeHead, Places(free))
    && forall key :: IsList(next, HeadOf(heads, Block(key)), Places(BlockList(table, key)))
  }

  lemma PlacesFacts(ids: seq<EntryId>)
    ensures forall e :: e in ids <==> Place(e) in Places(ids)
    ensures NoDup(ids) ==> NoDup(Places(ids))
  {
    forall e | e in ids ensures Place(e) in Places(ids) {
      var i :| 0 <= i < |ids| && ids[i] == e;
      assert Places(ids)[i] == Place(e);
    }
    forall e | Place(e) in Places(ids) ensures e in ids {
      var i :| 0 <= i < |ids| && Places(ids)[i] == Place(e);
    }
  }

  lemma PlacesCons(e: EntryId, ids: seq<EntryId>)
    ensures Places([e] + ids) == [Place(e)] + Places(ids)
  {
  }

  lemma PlacesTail(ids: seq<EntryId>)
    requires ids != []
    ensures Places(ids[1..]) == Places(ids)[1..] && Places(ids)[0] == Place(ids[0])
  {
  }

  lemma PlacesWithout(ids: seq<EntryId>, n: nat)
    requires n < |ids|
    ensures Places(ids[..n] + ids[n + 1..]) == Places(ids)[..n] + Places(ids)[n + 1..]
  {
  }

  /** Taking the n-th object out of a list by writing to the word before it. */
  lemma {:induction false} ListWithout(next: Words, head: nat, objs: seq<nat>, n: nat)
    requires IsList(next, head, objs) && 0 < n < |objs| && NoDup(objs)
    ensures objs[n - 1] in next && objs[n] in next
    ensures IsList(next[objs[n - 1] := next[objs[n]]], head, objs[..n] + objs[n + 1..])
    decreases n
  {
    ListFrom(next, head, objs, n - 1);
    ListFrom(next, head, objs, n);
    var next' := next[objs[n - 1] := next[objs[n]]];
    var rest := objs[..n] + objs[n + 1..];
    if n == 1 {
      assert rest[1..] == objs[2..];
      assert forall i :: 2 <= i < |objs| ==> objs[i] != objs[0];
      ListKept(next, next', {objs[0]}, next[objs[1]], objs[2..]);
    } else {
      var tail := objs[1..];
      assert NoDup(tail) by { assert forall i :: 0 <= i < |tail| ==> tail[i] == objs[i + 1]; }
      ListWithout(next, next[head], tail, n - 1);
      assert rest[1..] == tail[..n - 1] + tail[n..];
      assert objs[0] != objs[n - 1];
    }
  }

  /** Free entries are on no block's list, and no entry is on the lists of two blocks. */
  lemma OneHome<V>(table: Table, store: map<EntryId, Entry<V>>, free: seq<EntryId>, poolSize: nat, contents: map<nat, V>,
                   key: nat, k: nat, e: EntryId)
    requires RepOK(table, store, free, poolSize, contents) && e in BlockList(table, key)
    ensures e in store && e !in free
    ensures e in BlockList(table, k) ==> Block(k) == Block(key)
  {
    hide TableOK, KeysOK, ContentsOK, Block;
    assert Block(store[e].key) == Block(key);
    OneList(table, store[e].key, key);
  }

  lemma ListNoDup<V>(table: Table, store: map<EntryId, Entry<V>>, free: seq<EntryId>, poolSize: nat, contents: map<nat, V>, key: nat)
    requires RepOK(table, store, free, poolSize, contents)
    ensures NoDup(BlockList(table, key)) && NoDup(free)
  {
    hide TableOK, ContentsOK, Block, BlockList;
    var list := BlockList(table, key);
    forall i, j | 0 <= i < j < |list| ensures list[i] != list[j] {
      assert list[i] in list && list[j] in list;
    }
  }

  lemma RepTable<V>(table: Table, store: map<EntryId, Entry<V>>, free: seq<EntryId>, poolSize: nat, contents: map<nat, V>)
    requires RepOK(table, store, free, poolSize, contents)
    ensures TableOK(table)
  {
  }

  lemma ChangedList(table: Table, table': Table, key: nat, list: seq<EntryId>, k: nat)
    requires TableOK(table) && TableOK(table') && ListChanged(table, table', key, list)
    ensures BlockList(table', k) == if Block(k) == Block(key) then list else BlockList(table, k)
  {
    hide BlockList, TableOK, Block;
  }

  lemma ShownList(next: Words, heads: map<nat, nat>, freeHead: nat, table: Table, free: seq<EntryId>, key: nat)
    requires TableOK(table) && Shown(next, heads, freeHead, table, free)
    ensures IsList(next, HeadOf(heads, Block(key)), Places(BlockList(table, key))) && IsList(next, freeHead, Places(free))
  {
    hide BlockList, TableOK, Block, HeadOf;
  }

  /** The lists of all other blocks keep their words. */
  lemma OthersShown<V>(next: Words, next': Words, heads: map<nat, nat>, heads': map<nat, nat>, freeHead: nat, table: Table, table': Table,
                       store: map<EntryId, Entry<V>>, free: seq<EntryId>, poolSize: nat, contents: map<nat, V>,
                       key: nat, list: seq<EntryId>, changed: set<nat>, k: nat)
    requires RepOK(table, store, free, poolSize, contents) && Shown(next, heads, freeHead, table, free)
    requires TableOK(table') && ListChanged(table, table', key, list) && Block(k) != Block(key)
    requires SameBut(next, next', changed) && HeadOf(heads', Block(k)) == HeadOf(heads, Block(k))
    requires forall x :: x in changed ==> exists e :: x == Place(e) && (e in free || e in BlockList(table, key))
    ensures IsList(next', HeadOf(heads', Block(k)), Places(BlockList(table', k)))
  {
    hide RepOK, BlockList, IsList, Block, SameBut, Shown, ListChanged, TableOK, HeadOf;
    RepTable(table, store, free, poolSize, contents);
    ChangedList(table, table', key, list, k);
    ShownList(next, heads, freeHead, table, free, k);
    var ids := BlockList(table, k);
    PlacesFacts(ids);
    forall x | x in Places(ids) ensures x !in changed {
      if x in changed {
        var e :| x == Place(e) && (e in free || e in BlockList(table, key));
        assert e in ids;
        OneHome(table, store, free, poolSize, contents, k, key, e);
      }
    }
    ListKept(next, next', changed, HeadOf(heads, Block(k)), Places(ids));
  }

  /** e = free_; free_ = e->next; e->next = block; block = e. */
  lemma LinkShown<V>(next: Words, heads: map<nat, nat>, freeHead: nat, table: Table, table': Table,
                     store: map<EntryId, Entry<V>>, free: seq<EntryId>, poolSize: nat, contents: map<nat, V>, key: nat)
    requires RepOK(table, store, free, poolSize, contents) && Shown(next, heads, freeHead, table, free) && free != []
    requires TableOK(table') && ListChanged(table, table', key, [free[0]] + BlockList(table, key))
    ensures freeHead == Place(free[0]) && freeHead in next
    ensures Shown(next[freeHead := HeadOf(heads, Block(key))], heads[Block(key) := freeHead], next[freeHead], table', free[1..])
  {
    hide RepOK, BlockList, Block, IsList, Shown, ListChanged, TableOK, HeadOf, NoDup;
    RepTable(table, store, free, poolSize, contents);
    var list := BlockList(table, key);
    var next', heads' := next[freeHead := HeadOf(heads, Block(key))], heads[Block(key) := freeHead];
    ShownList(next, heads, freeHead, table, free, key);
    FirstPlace(next, freeHead, free);
    PlacesTail(free);
    PlacesFacts(free);
    ListNoDup(table, store, free, poolSize, contents, key);
    FreeStays(next, next', freeHead, Places(free));
    if free[0] in list {
      OneHome(table, store, free, poolSize, contents, key, key, free[0]);
    }
    BlockLinked(next, HeadOf(heads, Block(key)), list, free[0]);
    NewHead(heads, Block(key), freeHead);
    forall k ensures IsList(next', HeadOf(heads', Block(k)), Places(BlockList(table', k))) {
      ChangedList(table, table', key, [free[0]] + list, k);
      if Block(k) != Block(key) {
        OthersShown(next, next', heads, heads', freeHead, table, table', store, free, poolSize, contents, key, [free[0]] + list,
                    {freeHead}, k);
      }
    }
    ShowLists(next', heads', next[freeHead], table', free[1..]);
  }

  lemma ShowLists(next: Words, heads: map<nat, nat>, freeHead: nat, table: Table, free: seq<EntryId>)
    requires TableOK(table) && IsList(next, freeHead, Places(free))
    requires forall key :: IsList(next, HeadOf(heads, Block(key)), Places(BlockList(table, key)))
    ensures Shown(next, heads, freeHead, table, free)
  {
    hide BlockList, TableOK, Block, HeadOf, IsList;
  }

  lemma NewHead(heads: map<nat, nat>, block: nat, head: nat)
    ensures HeadOf(heads[block := head], block) == head
    ensures forall b :: b != block ==> HeadOf(heads[block := head], b) == HeadOf(heads, b)
  {
  }

  lemma FirstPlace(next: Words, head: nat, ids: seq<EntryId>)
    requires IsList(next, head, Places(ids)) && ids != []
    ensures head == Place(ids[0]) && head in next
  {
  }

  /** The block's own list with a new entry in front. */
  lemma BlockLinked(next: Words, head: nat, list: seq<EntryId>, e: EntryId)
    requires IsList(next, head, Places(list)) && e !in list
    ensures IsList(next[Place(e) := head], Place(e), Places([e] + list))
  {
    PlacesCons(e, list);
    PlacesFacts(list);
    ListKept(next, next[Place(e) := head], {Place(e)}, head, Places(list));
    assert ([Place(e)] + Places(list))[1..] == Places(list);
  }

  /** The rest of a list whose first object's word is written. */
  lemma FreeStays(next: Words, next': Words, head: nat, objs: seq<nat>)
    requires IsList(next, head, objs) && objs != [] && NoDup(objs) && SameBut(next, next', {head})
    ensures head in next && IsList(next', next[head], objs[1..])
  {
    assert forall i :: 1 <= i < |objs| ==> objs[i] != objs[0];
    ListKept(next, next', {head}, next[head], objs[1..]);
  }

  /** The words after the n-th entry of the key's block has moved to the front of the free list. */
  function Unlinked(next: Words, before: nat, cell: nat, freeHead: nat): Words
    requires cell in next
  {
    (if before == NULL then next else next[before := next[cell]])[cell := freeHead]
  }

  /** *p = e->next; e->next = free_; free_ = e. */
  lemma UnlinkShown<V>(next: Words, heads: map<nat, nat>, freeHead: nat, table: Table, table': Table,
                       store: map<EntryId, Entry<V>>, free: seq<EntryId>, poolSize: nat, contents: map<nat, V>, key: nat, n: nat)
    requires RepOK(table, store, free, poolSize, contents) && Shown(next, heads, freeHead, table, free) && n < |BlockList(table, key)|
    requires TableOK(table') && ListChanged(table, table', key, BlockList(table, key)[..n] + BlockList(table, key)[n + 1..])
    ensures var list := BlockList(table, key);
            var cell, before := Place(list[n]), if n == 0 then NULL else Place(list[n - 1]);
            && cell in next && (n > 0 ==> before in next)
            && var heads' := if n == 0 then heads[Block(key) := next[cell]] else heads;
               Shown(Unlinked(next, before, cell, freeHead), heads', cell, table', [list[n]] + free)
  {
    hide RepOK, BlockList, Block, IsList, Shown, ListChanged, TableOK, HeadOf, NoDup, Unlinked;
    RepTable(table, store, free, poolSize, contents);
    var list := BlockList(table, key);
    var cell, before := Place(list[n]), if n == 0 then NULL else Place(list[n - 1]);
    var head := HeadOf(heads, Block(key));
    ShownList(next, heads, freeHead, table, free, key);
    CellAt(next, head, list, n);
    ListNoDup(table, store, free, poolSize, contents, key);
    var next', heads' := Unlinked(next, before, cell, freeHead), if n == 0 then heads[Block(key) := next[cell]] else heads;
    BlockAfter(next, head, list, n, freeHead);
    FreeAfter(next, next', freeHead, free, cell, before, list[n], table, store, poolSize, contents, key, n);
    NewHead(heads, Block(key), next[cell]);
    UnlinkTouches(table, key, n);
    UnlinkedWords(next, before, cell, freeHead);
    forall k ensures IsList(next', HeadOf(heads', Block(k)), Places(BlockList(table', k))) {
      ChangedList(table, table', key, list[..n] + list[n + 1..], k);
      if Block(k) != Block(key) {
        OthersShown(next, next', heads, heads', freeHead, table, table', store, free, poolSize, contents, key, list[..n] + list[n + 1..],
                    if n == 0 then {cell} else {cell, before}, k);
      }
    }
    ShowLists(next', heads', cell, table', [list[n]] + free);
  }

  lemma UnlinkedWords(next: Words, before: nat, cell: nat, freeHead: nat)
    requires cell in next
    ensures SameBut(next, Unlinked(next, before, cell, freeHead), if before == NULL then {cell} else {cell, before})
  {
  }

  lemma UnlinkTouches(table: Table, key: nat, n: nat)
    requires TableOK(table) && n < |BlockList(table, key)|
    ensures BlockList(table, key)[n] in BlockList(table, key) && (n > 0 ==> BlockList(table, key)[n - 1] in BlockList(table, key))
  {
    hide BlockList, TableOK;
  }

  /** The block's own list. */
  lemma BlockAfter(next: Words, head: nat, list: seq<EntryId>, n: nat, freeHead: nat)
    requires IsList(next, head, Places(list)) && NoDup(list) && n < |list|
    ensures var cell, before := Place(list[n]), if n == 0 then NULL else Place(list[n - 1]);
            && cell in next
            && var head' := if n == 0 then next[cell] else head;
               IsList(Unlinked(next, before, cell, freeHead), head', Places(list[..n] + list[n + 1..]))
  {
    var places := Places(list);
    var cell, before := Place(list[n]), if n == 0 then NULL else Place(list[n - 1]);
    PlacesFacts(list);
    PlacesWithout(list, n);
    ListFrom(next, head, places, n);
    var cut := if n == 0 then next else next[before := next[cell]];
    if n == 0 {
      assert places[..0] + places[1..] == places[1..];
    } else {
      ListWithout(next, head, places, n);
    }
    var rest := places[..n] + places[n + 1..];
    assert cell !in rest by {
      assert forall i :: 0 <= i < |places| && i != n ==> places[i] != cell;
    }
    hide NoDup, Places;
    ListKept(cut, Unlinked(next, before, cell, freeHead), {cell}, if n == 0 then next[cell] else head, rest);
  }

  /** The free list with the entry in front. */
  lemma FreeAfter<V>(next: Words, next': Words, freeHead: nat, free: seq<EntryId>, cell: nat, before: nat, e: EntryId,
                     table: Table, store: map<EntryId, Entry<V>>, poolSize: nat, contents: map<nat, V>, key: nat, n: nat)
    requires RepOK(table, store, free, poolSize, contents) && n < |BlockList(table, key)|
    requires e == BlockList(table, key)[n] && cell == Place(e)
    requires before == if n == 0 then NULL else Place(BlockList(table, key)[n - 1])
    requires IsList(next, freeHead, Places(free)) && cell in next && next' == Unlinked(next, before, cell, freeHead)
    ensures IsList(next', cell, Places([e] + free))
  {
    hide RepOK, BlockList, TableOK;
    RepTable(table, store, free, poolSize, contents);
    UnlinkTouches(table, key, n);
    PlacesFacts(free);
    PlacesCons(e, free);
    OneHome(table, store, free, poolSize, contents, key, key, e);
    if n > 0 {
      OneHome(table, store, free, poolSize, contents, key, key, BlockList(table, key)[n - 1]);
    }
    hide Places, IsList, Unlinked;
    UnlinkedWords(next, before, cell, freeHead);
    ListKept(next, next', if before == NULL then {cell} else {cell, before}, freeHead, Places(free));
    FrontOf(next', cell, freeHead, Places(free)) by { assert next'[cell] == freeHead by { LastWrite(next, before, cell, freeHead); } }
  }

  lemma LastWrite(next: Words, before: nat, cell: nat, freeHead: nat)
    requires cell in next
    ensures cell in Unlinked(next, before, cell, freeHead) && Unlinked(next, before, cell, freeHead)[cell] == freeHead
  {
  }

  lemma FrontOf(next: Words, cell: nat, head: nat, objs: seq<nat>)
    requires cell != NULL && cell in next && next[cell] == head && IsList(next, head, objs)
    ensures IsList(next, cell, [cell] + objs)
  {
    assert ([cell] + objs)[1..] == objs;
  }

  /** `shorter(i)` is the table without the i-th entry of the key's block. */
  ghost predicate Shortened(table: Table, key: nat, shorter: nat -> Table)
    requires TableOK(table)
  {
    forall i: nat :: i < |BlockList(table, key)| ==>
      (TableOK(shorter(i)) && ListChanged(table, shorter(i), key, BlockList(table, key)[..i] + BlockList(table, key)[i + 1..]))
  }

  lemma ShorterAt(table: Table, key: nat, shorter: nat -> Table, i: nat)
    requires TableOK(table) && Shortened(table, key, shorter) && i < |BlockList(table, key)|
    ensures TableOK(shorter(i)) && ListChanged(table, shorter(i), key, BlockList(table, key)[..i] + BlockList(table, key)[i + 1..])
  {
    hide BlockList, TableOK, ListChanged;
  }

  /** The words of all entries, the block array and free_. */
  class EntryWords {
    var next: Words
    var heads: map<nat, nat>
    var freeHead: nat

    /** Insert's last lines: the first free entry becomes the first of the key's block. */
    method Link<V>(key: nat, ghost table: Table, ghost table': Table, ghost store: map<EntryId, Entry<V>>, ghost free: seq<EntryId>,
                   ghost poolSize: nat, ghost contents: map<nat, V>) returns (cell: nat)
      requires RepOK(table, store, free, poolSize, contents) && Shown(next, heads, freeHead, table, free) && free != []
      requires TableOK(table') && ListChanged(table, table', key, [free[0]] + BlockList(table, key))
      modifies this
      ensures cell == Place(free[0]) && Shown(next, heads, freeHead, table', free[1..])
    {
      LinkShown(next, heads, freeHead, table, table', store, free, poolSize, contents, key);
      hide Shown, RepOK;
      cell := freeHead;
      freeHead := next[cell];
      next := next[cell := HeadOf(heads, Block(key))];
      heads := heads[Block(key) := cell];
    }

    /** FindAndRemove's walk with a pointer to the word that leads to the entry, and its removal. */
    method Unlink<V>(key: nat, store: map<EntryId, Entry<V>>, ghost table: Table, ghost free: seq<EntryId>,
                     ghost poolSize: nat, ghost contents: map<nat, V>, ghost shorter: nat -> Table) returns (found: bool, ghost n: nat)
      requires RepOK(table, store, free, poolSize, contents) && Shown(next, heads, freeHead, table, free)
      requires Shortened(table, key, shorter)
      modifies this
      ensures found <==> key in contents
      ensures !found ==> Shown(next, heads, freeHead, table, free)
      ensures found ==> n < |BlockList(table, key)| && Holds(table, store, key, BlockList(table, key)[n])
                        && Shown(next, heads, freeHead, shorter(n), [BlockList(table, key)[n]] + free)
    {
      hide Shown, RepOK, BlockList, IsList, ListChanged, TableOK, Shortened, Places, HeadOf, Block;
      RepTable(table, store, free, poolSize, contents);
      ghost var list := BlockList(table, key);
      var before, cell := NULL, HeadOf(heads, Block(key));
      ShownList(next, heads, freeHead, table, free, key);
      WalkFacts(table, store, free, poolSize, contents, key);
      n := 0;
      CellAt(next, HeadOf(heads, Block(key)), list, 0);
      while cell != NULL
        invariant n <= |list| && Shown(next, heads, freeHead, table, free) && IsList(next, HeadOf(heads, Block(key)), Places(list))
        invariant cell == (if n < |list| then Place(list[n]) else NULL) && before == (if n == 0 then NULL else Place(list[n - 1]))
        invariant cell != NULL ==> cell in next
        invariant forall i :: 0 <= i < n ==> store[list[i]].key != key
        decreases |list| - n
      {
        assert list[n] in list;
        if store[cell - 1].key == key {
          ShorterAt(table, key, shorter, n);
          UnlinkShown(next, heads, freeHead, table, shorter(n), store, free, poolSize, contents, key, n);
          if before == NULL {
            heads := heads[Block(key) := next[cell]];
          } else {
            next := next[before := next[cell]];
          }
          next := next[cell := freeHead];
          freeHead := cell;
          found := true;
          return;
        }
        before := cell;
        cell := next[cell];
        n := n + 1;
        CellAt(next, HeadOf(heads, Block(key)), list, n);
      }
      found := false;
    }
  }

  /** The n-th cell of a list and the word before it. */
  lemma CellAt(next: Words, head: nat, list: seq<EntryId>, n: nat)
    requires IsList(next, head, Places(list)) && n <= |list|
    ensures n < |list| ==> Place(list[n]) in next
    ensures n == 0 ==> head == if |list| == 0 then NULL else Place(list[0])
    ensures n > 0 ==> Place(list[n - 1]) in next && next[Place(list[n - 1])] == if n < |list| then Place(list[n]) else NULL
  {
    if n < |list| {
      ListFrom(next, head, Places(list), n);
    }
    if n > 0 {
      ListFrom(next, head, Places(list), n - 1);
    }
  }
}
