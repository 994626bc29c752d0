/**
 The code of one CentralFreeList as it runs under its lock, on linked chains in memory and on
 its own fields.  Each method is shown to do what the machine's step does: fields and memory that
 show class `cl` of a state before show class `cl` of the next state after.
 */
module CentralCode {
  import opened Base
  import opened Division
  import opened CentralFreeList
  import opened CentralInvariant
  import opened CentralLemmas
  import opened CentralMemory
  import opened CentralObjects
  import opened CentralCache
  import opened CentralRelease
  import opened CentralTheorems

  /** The fields of a span descriptor that change: the head of its object list, and refcount. */
  datatype Desc = Desc(objects: Addr, refcount: int)

  datatype TCEntry = TCEntry(head: Addr, tail: Addr)

  type Descs = map<nat, Desc>

  ghost predicate ShowsSpans(next: Words, descs: Descs, x: Central, spans: Spans) {
    forall id :: OnLists(x, id) ==>
      && id in spans && id in descs && descs[id].refcount == spans[id].refcount
      && IsList(next, descs[id].objects, spans[id].objects)
  }

  /** The transfer cache plays no part in what the spans show. */
  lemma OnlyLists(next: Words, descs: Descs, x: Central, spans: Spans)
    requires ShowsSpans(next, descs, x, spans)
    ensures forall y: Central :: y.nonempty == x.nonempty && y.empty == x.empty ==> ShowsSpans(next, descs, y, spans)
  {
    forall y: Central | y.nonempty == x.nonempty && y.empty == x.empty ensures ShowsSpans(next, descs, y, spans) {
      assert forall id :: OnLists(y, id) ==> OnLists(x, id);
    }
  }

  ghost predicate ShowsSlots(next: Words, entries: seq<TCEntry>, used: nat, slots: seq<Chain>) {
    && used == |slots| <= |entries|
    && forall i :: 0 <= i < used ==> ShowsSlot(next, entries[i], slots[i])
  }

  ghost predicate ShowsSlot(next: Words, entry: TCEntry, chain: Chain) {
    IsList(next, entry.head, chain) && (chain != [] ==> entry.tail == chain[|chain| - 1])
  }

  /** `changed` does not touch what the class's lists and slots lead to. */
  ghost predicate Untouched(s: State, cl: nat, changed: set<Addr>, but: nat)
    requires cl < |s.central|
  {
    && (forall id, a :: OnLists(s.central[cl], id) && id != but && id in s.spans && a in s.spans[id].objects ==> a !in changed)
    && (forall i, a :: 0 <= i < |s.central[cl].slots| && a in s.central[cl].slots[i] ==> a !in changed)
  }

  lemma SlotsStillShown(next: Words, next': Words, changed: set<Addr>, entries: seq<TCEntry>, used: nat, s: State, cl: nat, but: nat)
    requires cl < |s.central| && ShowsSlots(next, entries, used, s.central[cl].slots)
    requires SameBut(next, next', changed) && Untouched(s, cl, changed, but)
    ensures ShowsSlots(next', entries, used, s.central[cl].slots)
  {
    hide SameBut;
    forall i | 0 <= i < used ensures ShowsSlot(next', entries[i], s.central[cl].slots[i]) {
      ListKept(next, next', changed, entries[i].head, s.central[cl].slots[i]);
    }
  }

  /** An object that is in one place is on no other list of the class. */
  lemma PlaceAlone(s: State, b: Book, cl: nat, o: Addr, p: Place, id: nat)
    requires PlacesOK(s, b) && ListedOK(s.central, s.spans, b.keeper) && cl < |s.central|
    requires At(s, b.keeper, o, p) && (p == OnSpan(id) || p.InFlight?)
    ensures Untouched(s, cl, {o}, id)
    ensures p.OnSpan? ==> forall t :: 0 <= t < |s.threads| ==> o !in Flight(s.threads[t])
  {
    forall e, a | OnLists(s.central[cl], e) && e != id && e in s.spans && a in s.spans[e].objects ensures a != o {
      assert At(s, b.keeper, a, OnSpan(e));
    }
    forall i, a | 0 <= i < |s.central[cl].slots| && a in s.central[cl].slots[i] ensures a != o {
      assert At(s, b.keeper, a, InSlot(cl, i));
    }
    forall t | p.OnSpan? && 0 <= t < |s.threads| ensures o !in Flight(s.threads[t]) {
      assert !At(s, b.keeper, o, InFlight(t));
    }
  }

  /** An object of a listed span is nowhere else. */
  lemma SpanObjectAlone(cfg: Config, s: State, b: Book, cl: nat, id: nat, o: Addr)
    requires ValidConfig(cfg) && Inv(cfg, s, b) && cl < |s.central| && OnLists(s.central[cl], id)
    requires id in s.spans && o in s.spans[id].objects
    ensures Untouched(s, cl, {o}, id)
    ensures forall t :: 0 <= t < |s.threads| ==> o !in Flight(s.threads[t])
  {
    hide LocksOK, PlacesOK, ListedOK, ObjectsOK, SpansOK, PageMapOK, HeldOK, CentralsOK, ThreadsOK, SlotsOK, RefcountsOK,
         BudgetOK, SpanOK, CountersOK, Untouched;
    ListBasics(cfg, s, b, cl, id);
    PlaceAlone(s, b, cl, o, OnSpan(id), id);
  }

  /** An object in a thread's hands is on no span and in no slot. */
  lemma FlightObjectAlone(cfg: Config, s: State, b: Book, cl: nat, t: nat, o: Addr, id: nat)
    requires ValidConfig(cfg) && Inv(cfg, s, b) && cl < |s.central| && t < |s.threads| && o in Flight(s.threads[t])
    ensures Untouched(s, cl, {o}, id)
  {
    hide LocksOK, PlacesOK, ListedOK, ObjectsOK, SpansOK, PageMapOK, HeldOK, CentralsOK, ThreadsOK, SlotsOK, RefcountsOK,
         BudgetOK, Untouched;
    PlaceAlone(s, b, cl, o, InFlight(t), id);
  }

  /** One span's descriptor and list change, and words that no other list of the class uses. */
  lemma SpansShown(next: Words, next': Words, changed: set<Addr>, descs: Descs, s: State, cl: nat, id: nat, d: Desc, y: Central, sp: Span)
    requires cl < |s.central| && ShowsSpans(next, descs, s.central[cl], s.spans)
    requires SameBut(next, next', changed) && Untouched(s, cl, changed, id)
    requires forall e :: OnLists(y, e) ==> e == id || OnLists(s.central[cl], e)
    requires OnLists(y, id) ==> d.refcount == sp.refcount && IsList(next', d.objects, sp.objects)
    ensures ShowsSpans(next', descs[id := d], y, s.spans[id := sp])
  {
    hide SameBut, OnLists;
    forall e | OnLists(y, e) && e != id
      ensures e in s.spans && e in descs && descs[e].refcount == s.spans[e].refcount && IsList(next', descs[e].objects, s.spans[e].objects)
    {
      ListKept(next, next', changed, descs[e].objects, s.spans[e].objects);
    }
  }

  /** What FetchFromOneSpans leaves in memory: the first k objects of the first span cut off as a chain. */
  lemma FetchShown(cfg: Config, s: State, b: Book, t: nat, cl: nat, n: nat, acc: Chain, failed: bool, next: Words, descs: Descs)
    requires ValidConfig(cfg) && Inv(cfg, s, b)
    requires t < |s.threads| && s.threads[t] == Running(Fetch(cl, n, acc, failed)) && |acc| < n
    requires cl < |s.central| && s.central[cl].nonempty != [] && s.central[cl].nonempty[0] in s.spans
    requires ShowsSpans(next, descs, s.central[cl], s.spans)
    ensures var id := s.central[cl].nonempty[0];
            var objs := s.spans[id].objects;
            var k := Take(n, acc, s.spans[id]);
            && 0 < k <= |objs| && id in descs && objs[k - 1] in next
            && var next' := next[objs[k - 1] := NULL];
               var s' := NextFetch(s, t, cl, n, acc, failed);
               && IsList(next', descs[id].objects, objs[..k])
               && ShowsSpans(next', descs[id := Desc(next[objs[k - 1]], descs[id].refcount + k)], s'.central[cl], s'.spans)
  {
    hide Inv, Untouched, SpanOK, CountersOK, Unlink;
    var x := s.central[cl];
    var id := x.nonempty[0];
    ListBasics(cfg, s, b, cl, id);
    var sp := s.spans[id];
    var k := Take(n, acc, sp);
    SpanObjectAlone(cfg, s, b, cl, id, sp.objects[k - 1]);
    UnlinkFacts(x.nonempty, id);
    UnlinkFacts(x.empty, id);
    assert id in x.nonempty;
    CutShown(next, descs, s, cl, id, k, FetchedCentral(n, acc, id, sp, x), FetchedSpan(n, acc, sp));
  }

  lemma CutShown(next: Words, descs: Descs, s: State, cl: nat, id: nat, k: nat, y: Central, sp: Span)
    requires cl < |s.central| && ShowsSpans(next, descs, s.central[cl], s.spans) && OnLists(s.central[cl], id) && id in s.spans
    requires var objs := s.spans[id].objects; 0 < k <= |objs| && NoDup(objs) && Untouched(s, cl, {objs[k - 1]}, id)
    requires forall e :: OnLists(y, e) ==> e == id || OnLists(s.central[cl], e)
    requires sp.refcount == s.spans[id].refcount + k && sp.objects == s.spans[id].objects[k..]
    ensures var objs := s.spans[id].objects;
            && id in descs && objs[k - 1] in next
            && var next' := next[objs[k - 1] := NULL];
               && IsList(next', descs[id].objects, objs[..k])
               && ShowsSpans(next', descs[id := Desc(next[objs[k - 1]], descs[id].refcount + k)], y, s.spans[id := sp])
  {
    var objs := s.spans[id].objects;
    hide IsList, OnLists, Untouched, NoDup;
    ListCut(next, descs[id].objects, objs, k);
    ListFrom(next, descs[id].objects, objs, k - 1);
    var last := objs[k - 1];
    var next' := next[last := NULL];
    LastIsGone(objs, k);
    ListKept(next, next', {last}, next[last], objs[k..]);
    SpansShown(next, next', {last}, descs, s, cl, id, Desc(next[last], descs[id].refcount + k), y, sp);
  }

  lemma LastIsGone(objs: Chain, k: nat)
    requires 0 < k <= |objs| && NoDup(objs)
    ensures objs[k - 1] !in objs[k..]
  {
  }

  /** A word of an object in a thread's hands is written: the class's lists and slots stay as they are. */
  lemma FlightWrite(cfg: Config, s: State, b: Book, cl: nat, t: nat, o: Addr, value: Addr, next: Words, descs: Descs,
                    entries: seq<TCEntry>, used: nat)
    requires ValidConfig(cfg) && Inv(cfg, s, b) && cl < |s.central| && t < |s.threads| && o in Flight(s.threads[t])
    requires ShowsSpans(next, descs, s.central[cl], s.spans) && ShowsSlots(next, entries, used, s.central[cl].slots)
    ensures ShowsSpans(next[o := value], descs, s.central[cl], s.spans) && ShowsSlots(next[o := value], entries, used, s.central[cl].slots)
  {
    hide Inv, ShowsSlots;
    FlightObjectAlone(cfg, s, b, cl, t, o, 0);
    FlightObjectAlone(cfg, s, b, cl, t, o, 1);
    SlotsStillShown(next, next[o := value], {o}, entries, used, s, cl, 0);
    forall id | OnLists(s.central[cl], id)
      ensures id in descs && id in s.spans && IsList(next[o := value], descs[id].objects, s.spans[id].objects)
    {
      ListKept(next, next[o := value], {o}, descs[id].objects, s.spans[id].objects);
    }
  }

  /** Thread t alone takes k steps that ask nothing of the environment. */
  ghost predicate RunsTo(cfg: Config, s: State, s': State, t: nat, k: nat)
    requires ValidConfig(cfg)
    decreases k
  {
    if k == 0 then s == s'
    else exists m :: RunsTo(cfg, s, m, t, k - 1) && Enabled(cfg, m, t, NoChoice) && s' == Next(cfg, m, t, NoChoice)
  }

  /** FetchFromOneSpans is a step of the machine. */
  lemma FetchRuns(cfg: Config, s0: State, s: State, b: Book, t: nat, k: nat, cl: nat, n: nat, acc: Chain, failed: bool) returns (b': Book)
    requires ValidConfig(cfg) && Inv(cfg, s, b) && RunsTo(cfg, s0, s, t, k)
    requires t < |s.threads| && s.threads[t] == Running(Fetch(cl, n, acc, failed)) && |acc| < n
    requires cl < |s.central| && s.central[cl].nonempty != [] && s.central[cl].nonempty[0] in s.spans
    ensures var s' := NextFetch(s, t, cl, n, acc, failed); Inv(cfg, s', b') && RunsTo(cfg, s0, s', t, k + 1)
    ensures var sp := s.spans[s.central[cl].nonempty[0]];
            var acc' := sp.objects[..Take(n, acc, sp)] + acc;
            NextFetch(s, t, cl, n, acc, failed).threads == s.threads[t := Running(Fetch(cl, n, acc', failed))]
  {
    hide Inv;
    FetchStep(cfg, s, b, t, cl, n, acc, failed);
    var id := s.central[cl].nonempty[0];
    b' := Relocate(b, s.spans[id].objects[..Take(n, acc, s.spans[id])], InFlight(t));
    var ch := HoldersCanStep(cfg, s, b, t);
    assert Enabled(cfg, s, t, NoChoice) && NextFetch(s, t, cl, n, acc, failed) == Next(cfg, s, t, NoChoice);
  }

  lemma HeadIsNull(next: Words, head: Addr, objs: Chain)
    requires IsList(next, head, objs)
    ensures head == NULL <==> objs == []
    ensures objs != [] ==> head == objs[0] && head in next
  {
  }

  /** What ReleaseToSpans leaves in memory, whether the span stays or goes. */
  lemma ReleaseShown(cfg: Config, s: State, b: Book, t: nat, c: nat, rest: Chain, k: Cont, next: Words, descs: Descs,
                     entries: seq<TCEntry>, used: nat)
    requires ValidConfig(cfg) && Inv(cfg, s, b) && t < |s.threads| && s.threads[t] == Running(ReleaseList(c, rest, k)) && rest != []
    requires c < |s.central| && ShowsSpans(next, descs, s.central[c], s.spans) && ShowsSlots(next, entries, used, s.central[c].slots)
    requires IsList(next, rest[0], rest)
    ensures |s.central| == |cfg.classes| && IsClass(cfg, c) && ReleaseEnabled(cfg, s, c, rest[0]) && rest[0] in next
    ensures var id := s.pagemap[PageOf(cfg, rest[0])];
            && id in descs
            && var s' := NextRelease(cfg, s, t, c, rest, k);
               if s.spans[id].refcount == 1 then
                 && ShowsSpans(next, descs[id := Desc(descs[id].objects, 0)], s'.central[c], s'.spans)
                 && ShowsSlots(next, entries, used, s'.central[c].slots) && IsList(next, next[rest[0]], rest[1..])
               else
                 var next' := next[rest[0] := descs[id].objects];
                 && ShowsSpans(next', descs[id := Desc(rest[0], descs[id].refcount - 1)], s'.central[c], s'.spans)
                 && ShowsSlots(next', entries, used, s'.central[c].slots) && IsList(next', next[rest[0]], rest[1..])
  {
    hide Inv, SpanOK, CountersOK, Carved, ObjectsPerSpan, PageOf, Untouched, NoDup, ShowsSlots, NextRelease;
    ReleasedObject(cfg, s, b, t, c, rest, k);
    Basics(cfg, s, b, t);
    var o := rest[0];
    var id := s.pagemap[PageOf(cfg, o)];
    FirstAlone(rest, ContChain(k));
    FlightObjectAlone(cfg, s, b, c, t, o, id);
    ListsNoDup(cfg, s.spans, c, s.central[c]);
    ReleaseLists(cfg, s, t, c, rest, k);
    var s' := NextRelease(cfg, s, t, c, rest, k);
    if s.spans[id].refcount == 1 {
      RetireMemory(next, descs, s, c, id, o, rest, s'.central[c], s'.spans[id]);
    } else {
      ReturnMemory(next, descs, entries, used, s, c, id, o, rest, s'.central[c], s'.spans[id]);
    }
  }

  lemma ListsNoDup(cfg: Config, spans: Spans, c: nat, x: Central)
    requires CountersOK(cfg, spans, c, x)
    ensures NoDup(x.nonempty) && NoDup(x.empty)
  {
  }

  lemma FirstAlone(rest: Chain, more: Chain)
    requires NoDup(rest + more) && rest != []
    ensures rest[0] in rest + more && rest[0] !in rest[1..]
  {
    var all := rest + more;
    assert forall i :: 0 <= i < |rest| ==> all[i] == rest[i];
  }

  /** How ReleaseToSpans changes the class and the span. */
  lemma ReleaseLists(cfg: Config, s: State, t: nat, c: nat, rest: Chain, k: Cont)
    requires ValidConfig(cfg) && t < |s.threads| && IsClass(cfg, c) && |s.central| == |cfg.classes|
    requires rest != [] && ReleaseEnabled(cfg, s, c, rest[0]) && NoDup(s.central[c].nonempty) && NoDup(s.central[c].empty)
    ensures var id := s.pagemap[PageOf(cfg, rest[0])];
            var s' := NextRelease(cfg, s, t, c, rest, k);
            var sp := s.spans[id];
            && |s'.central| == |s.central| && s'.central[c].slots == s.central[c].slots
            && (forall e :: OnLists(s'.central[c], e) ==> e == id || OnLists(s.central[c], e))
            && (sp.refcount == 1 ==> !OnLists(s'.central[c], id))
            && s'.spans == s.spans[id := if sp.refcount == 1 then sp.(refcount := 0)
                 else sp.(refcount := sp.refcount - 1, objects := [rest[0]] + sp.objects)]
  {
    hide ObjectsPerSpan, PageOf;
    var id := s.pagemap[PageOf(cfg, rest[0])];
    var x := s.central[c];
    UnlinkFacts(x.nonempty, id);
    UnlinkFacts(x.empty, id);
    NoDupCons(id, Unlink(x.nonempty, id));
    UnlinkFacts([id] + Unlink(x.nonempty, id), id);
    UnlinkFacts(Unlink(x.empty, id), id);
  }

  lemma RetireMemory(next: Words, descs: Descs, s: State, c: nat, id: nat, o: Addr, rest: Chain, y: Central, sp: Span)
    requires c < |s.central| && ShowsSpans(next, descs, s.central[c], s.spans) && id in descs
    requires Untouched(s, c, {o}, id) && !OnLists(y, id) && forall e :: OnLists(y, e) ==> e == id || OnLists(s.central[c], e)
    requires IsList(next, o, rest) && rest != []
    ensures o in next && IsList(next, next[o], rest[1..])
    ensures ShowsSpans(next, descs[id := Desc(descs[id].objects, 0)], y, s.spans[id := sp])
  {
    SpansShown(next, next, {o}, descs, s, c, id, Desc(descs[id].objects, 0), y, sp);
  }

  lemma ReturnMemory(next: Words, descs: Descs, entries: seq<TCEntry>, used: nat, s: State, c: nat, id: nat, o: Addr,
                     rest: Chain, y: Central, sp: Span)
    requires c < |s.central| && ShowsSpans(next, descs, s.central[c], s.spans) && ShowsSlots(next, entries, used, s.central[c].slots)
    requires OnLists(s.central[c], id) && id in s.spans && id in descs && o !in s.spans[id].objects
    requires Untouched(s, c, {o}, id) && forall e :: OnLists(y, e) ==> e == id || OnLists(s.central[c], e)
    requires IsList(next, o, rest) && rest != [] && o == rest[0] && o !in rest[1..]
    requires sp.refcount == s.spans[id].refcount - 1 && sp.objects == [o] + s.spans[id].objects
    ensures o in next
    ensures var next' := next[o := descs[id].objects];
            && ShowsSpans(next', descs[id := Desc(o, descs[id].refcount - 1)], y, s.spans[id := sp])
            && ShowsSlots(next', entries, used, s.central[c].slots) && IsList(next', next[o], rest[1..])
  {
    hide OnLists, Untouched, ShowsSlots;
    var next' := next[o := descs[id].objects];
    ListKept(next, next', {o}, next[o], rest[1..]);
    ListKept(next, next', {o}, descs[id].objects, s.spans[id].objects);
    assert sp.objects[1..] == s.spans[id].objects;
    SpansShown(next, next', {o}, descs, s, c, id, Desc(o, descs[id].refcount - 1), y, sp);
    SlotsStillShown(next, next', {o}, entries, used, s, c, id);
  }

  // ----- carving

  /** The first k objects' words lead to the object behind. */
  ghost predicate Linked(next: Words, objs: Chain, k: int) {
    k < |objs| && forall j :: 0 <= j < k ==> objs[j] in next && next[objs[j]] == objs[j + 1]
  }

  lemma LinkOne(before: Words, next: Words, objs: Chain, k: nat, value: Addr)
    requires Linked(next, objs, k) && NoDup(objs) && SameBut(before, next, set a | a in objs)
    ensures Linked(next[objs[k] := value], objs, k) && SameBut(before, next[objs[k] := value], set a | a in objs)
    ensures k + 1 < |objs| && value == objs[k + 1] ==> Linked(next[objs[k] := value], objs, k + 1)
  {
  }

  /** A chain that is linked up to its last object, which leads to NULL. */
  lemma {:induction false} LinkedIsList(next: Words, objs: Chain, i: nat)
    requires i < |objs| && Linked(next, objs, |objs| - 1) && objs[|objs| - 1] in next && next[objs[|objs| - 1]] == NULL
    requires forall j :: 0 <= j < |objs| ==> objs[j] != NULL
    ensures IsList(next, objs[i], objs[i..])
    decreases |objs| - i
  {
    assert objs[i..][1..] == objs[i + 1..];
    if i + 1 < |objs| {
      LinkedIsList(next, objs, i + 1);
    }
  }

  /** The i-th object of a span, and how it relates to the next one. */
  lemma CarvedAt(cfg: Config, id: nat, c: nat, i: nat)
    requires ValidConfig(cfg) && IsClass(cfg, c) && i < ObjectsPerSpan(cfg, c)
    ensures Carved(cfg, id, c)[i] == id * cfg.pageSize + i * cfg.classes[c].bytes
    ensures (i + 1) * cfg.classes[c].bytes == i * cfg.classes[c].bytes + cfg.classes[c].bytes <= cfg.classes[c].pages * cfg.pageSize
  {
    var bytes := cfg.classes[c].bytes;
    MulLe(i + 1, ObjectsPerSpan(cfg, c), bytes);
  }

  lemma CarvedCount(cfg: Config, c: nat, num: nat)
    requires ValidConfig(cfg) && IsClass(cfg, c)
    ensures var bytes, room := cfg.classes[c].bytes, cfg.classes[c].pages * cfg.pageSize;
            num * bytes + bytes <= room <==> num < ObjectsPerSpan(cfg, c)
  {
    var bytes, room := cfg.classes[c].bytes, cfg.classes[c].pages * cfg.pageSize;
    var q := ObjectsPerSpan(cfg, c);
    assert q == room / bytes;
    assert q * bytes <= room < q * bytes + bytes;
    assert (num + 1) * bytes == num * bytes + bytes;
    if num < q {
      MulLe(num + 1, q, bytes);
    } else {
      MulLe(q, num, bytes);
    }
  }

  // ----- the object

  datatype Decision = Pushed | ReleaseChain | FindVictim

  datatype Shrunk = Refused | SlotGiven | ChainOut(head: Addr)

  /** The descriptors of all spans but those in `changed` are as before. */
  ghost predicate SameDescsBut(descs: Descs, descs': Descs, changed: set<nat>) {
    forall id :: id in descs && id !in changed ==> id in descs' && descs'[id] == descs[id]
  }

  /** ReleaseToSpans' list moves: a full span becomes the first non-empty one, and a span without objects in use leaves. */
  ghost predicate ReleaseMoves(nonempty: seq<nat>, empty: seq<nat>, nonempty': seq<nat>, empty': seq<nat>, id: nat, was: Desc) {
    if was.refcount == 1 then nonempty' == Unlink(nonempty, id) && empty' == Unlink(empty, id)
    else if was.objects == NULL then nonempty' == [id] + Unlink(nonempty, id) && empty' == Unlink(empty, id)
    else nonempty' == nonempty && empty' == empty
  }

  /** What ReleaseToSpans does to the lists and counters is what the machine's step does. */
  lemma MovesAreNext(cfg: Config, s: State, t: nat, c: nat, rest: Chain, k: Cont, was: Desc)
    requires ValidConfig(cfg) && t < |s.threads| && IsClass(cfg, c) && |s.central| == |cfg.classes|
    requires rest != [] && ReleaseEnabled(cfg, s, c, rest[0])
    requires var sp := s.spans[s.pagemap[PageOf(cfg, rest[0])]]; was.refcount == sp.refcount && (was.objects == NULL <==> sp.objects == [])
    ensures var id := s.pagemap[PageOf(cfg, rest[0])];
            var x := s.central[c];
            var s' := NextRelease(cfg, s, t, c, rest, k);
            && |s'.central| == |s.central|
            && var y := s'.central[c];
            && y == x.(nonempty := y.nonempty, empty := y.empty,
                       numSpans := x.numSpans - (if was.refcount == 1 then 1 else 0),
                       counter := x.counter + 1
                         - (if was.refcount == 1 then cfg.classes[c].pages * cfg.pageSize / cfg.classes[c].bytes else 0))
            && ReleaseMoves(x.nonempty, x.empty, y.nonempty, y.empty, id, was)
  {
    hide Unlink, PageOf;
    var id := s.pagemap[PageOf(cfg, rest[0])];
    UnlinkAgain(s.central[c].nonempty, id);
    UnlinkAgain(s.central[c].empty, id);
  }

  /** The entry has become the last one in use, and the others are as before. */
  ghost predicate Appended(entries: seq<TCEntry>, used: nat, entries': seq<TCEntry>, used': nat, entry: TCEntry) {
    used < |entries| && used' == used + 1 && entries' == entries[used := entry]
  }

  /** The thread is about to give a span back to the page heap, with the rest of its chain still in hand. */
  predicate GivesBack(th: Thread, rest: Chain, k: Cont) {
    th.Waiting? && th.todo.DeleteSpan? && th.todo.rest == rest && th.todo.k == k
  }

  /** The first words of all objects, and the span descriptors: one memory for all classes. */
  class Memory {
    var next: Words
    var descs: Descs

    constructor ()
      ensures next == map[] && descs == map[]
    {
      next, descs := map[], map[];
    }
  }

  class CentralList {
    const cfg: Config
    const cl: nat
    const maxCacheSize: int
    const mem: Memory
    var nonempty: seq<nat>
    var empty: seq<nat>
    var numSpans: int
    var counter: int
    const tcSlots: array<TCEntry>
    var usedSlots: nat
    var cacheSize: int

    /** CentralFreeList::Init. */
    constructor (cfg: Config, cl: nat, mem: Memory)
      requires ValidConfig(cfg) && cl < |cfg.classes|
      ensures this.cfg == cfg && this.cl == cl && this.mem == mem && fresh(tcSlots)
      ensures forall s :: Init(cfg, s) ==> Shows(s)
    {
      this.cfg, this.cl, this.mem := cfg, cl, mem;
      var m := MaxCacheSize(cfg, cl);
      maxCacheSize, cacheSize := m, if INITIAL_CACHE_SIZE < m then INITIAL_CACHE_SIZE else m;
      nonempty, empty, numSpans, counter, usedSlots := [], [], 0, 0, 0;
      tcSlots := new TCEntry[MAX_TRANSFER_ENTRIES](_ => TCEntry(NULL, NULL));
      new;
      hide MaxCacheSize;
      assert forall s :: Init(cfg, s) ==> s.central[cl] == InitCentral(cfg, cl);
    }

    /** The fields and the memory show class `cl` of the machine's state. */
    ghost predicate Shows(s: State)
      reads this, tcSlots, mem
    {
      && ValidConfig(cfg) && cl < |s.central| == |cfg.classes| && tcSlots.Length == MAX_TRANSFER_ENTRIES
      && var x := s.central[cl];
      && nonempty == x.nonempty && empty == x.empty && numSpans == x.numSpans && counter == x.counter
      && cacheSize == x.cacheSize && maxCacheSize == x.maxCacheSize
      && ShowsSpans(mem.next, mem.descs, x, s.spans)
      && ShowsSlots(mem.next, tcSlots[..], usedSlots, x.slots)
    }

    /** Populate's loop over a new span, outside every lock. */
    method Carve(id: nat) returns (head: Addr, num: nat)
      requires ValidConfig(cfg) && IsClass(cfg, cl) && id > 0
      modifies mem`next
      ensures IsList(mem.next, head, Carved(cfg, id, cl)) && num == ObjectsPerSpan(cfg, cl)
      ensures SameBut(old(mem.next), mem.next, set a | a in Carved(cfg, id, cl))
    {
      hide ObjectsPerSpan, Carved, IsList, Linked, SameBut, NoDup;
      ghost var objs: Chain := Carved(cfg, id, cl);
      CarvedFacts(cfg, id, cl);
      var size := cfg.classes[cl].bytes;
      var ptr: Addr := id * cfg.pageSize;
      ghost var start, room := ptr, cfg.classes[cl].pages * cfg.pageSize;
      var limit := ptr + cfg.classes[cl].pages * cfg.pageSize;
      var tail: Addr := NULL;
      head, num := NULL, 0;
      CarvedCount(cfg, cl, 0);
      ghost var offset := 0;
      SameWords(mem.next, objs);
      while ptr + size <= limit
        invariant num <= |objs| && offset == num * size && ptr == start + offset
        invariant offset + size <= room <==> num < |objs|
        invariant num > 0 ==> head == objs[0] && tail == objs[num - 1]
        invariant num == 0 ==> mem.next == old(mem.next)
        invariant num > 0 ==> Linked(mem.next, objs, num - 1)
        invariant SameBut(old(mem.next), mem.next, set a | a in objs)
        decreases limit - ptr
      {
        CarvedAt(cfg, id, cl, num);
        CarvedCount(cfg, cl, num + 1);
        if num == 0 {
          head := ptr;
          NothingLinked(mem.next, objs);
        } else {
          LinkOne(old(mem.next), mem.next, objs, num - 1, ptr);
          mem.next := mem.next[tail := ptr];
        }
        tail := ptr;
        ptr, offset := ptr + size, offset + size;
        num := num + 1;
      }
      LinkOne(old(mem.next), mem.next, objs, num - 1, NULL);
      mem.next := mem.next[tail := NULL];
      LinkedIsList(mem.next, objs, 0);
      assert objs[0..] == objs;
    }

    /** The walk of FetchFromOneSpans along a span's list, and the cut behind the last object taken. */
    method TakeObjects(head: Addr, n: nat, ghost objs: Chain) returns (end: Addr, rest: Addr, result: nat)
      requires n > 0 && objs != [] && NoDup(objs) && IsList(mem.next, head, objs)
      modifies mem`next
      ensures result == (if n < |objs| then n else |objs|) && end == objs[result - 1] && end in old(mem.next)
      ensures rest == old(mem.next)[end] && (rest == NULL <==> result == |objs|)
      ensures mem.next == old(mem.next)[end := NULL]
    {
      var curr: Addr := head;
      result := 0;
      var more := true;
      end := NULL;
      ListFrom(mem.next, head, objs, 0);
      while more
        invariant result <= |objs| && result <= n && mem.next == old(mem.next)
        invariant IsList(mem.next, curr, objs[result..])
        invariant result > 0 ==> end == objs[result - 1] && end in mem.next && curr == mem.next[end]
        invariant if more then result < n && result < |objs| else result > 0 && (result == n || result == |objs|)
        decreases n - result, more
      {
        ListFrom(mem.next, head, objs, result);
        assert objs[result..][1..] == objs[result + 1..];
        end := curr;
        curr := mem.next[curr];
        result := result + 1;
        more := result < n && curr != NULL;
      }
      rest := curr;
      mem.next := mem.next[end := NULL];
    }

    /** DLL_Remove: the span leaves the list it is on. */
    method DllRemove(id: nat)
      modifies this`nonempty, this`empty
      ensures nonempty == Unlink(old(nonempty), id) && empty == Unlink(old(empty), id)
    {
      nonempty, empty := Unlink(nonempty, id), Unlink(empty, id);
    }

    /** FetchFromOneSpans: up to n objects off the first non-empty span, as the machine's step takes them. */
    method FetchFromOneSpans(n: nat, ghost s: State, ghost b: Book, ghost t: nat, ghost N: nat, ghost acc: Chain, ghost failed: bool)
      returns (start: Addr, end: Addr, result: nat)
      requires Shows(s) && Inv(cfg, s, b) && t < |s.threads| && s.threads[t] == Running(Fetch(cl, N, acc, failed))
      requires |acc| < N && n == N - |acc|
      modifies mem`next, mem`descs, this`nonempty, this`empty, this`counter
      ensures result == 0 <==> old(nonempty) == []
      ensures result == 0 ==> Shows(s) && mem.next == old(mem.next)
      ensures result > 0 ==> s.central[cl].nonempty != [] && s.central[cl].nonempty[0] in s.spans
      ensures result > 0 ==> var sp := s.spans[s.central[cl].nonempty[0]];
              && result == Take(N, acc, sp) <= |sp.objects| && end == sp.objects[result - 1]
              && IsList(mem.next, start, sp.objects[..result])
              && SameBut(old(mem.next), mem.next, {end}) && Shows(NextFetch(s, t, cl, N, acc, failed))
      ensures SameDescsBut(old(mem.descs), mem.descs, if result > 0 then {s.central[cl].nonempty[0]} else {})
    {
      hide Inv, IsList, ShowsSpans, SpanOK, CountersOK, Unlink, ShowsSlots, Untouched, NoDup;
      if nonempty == [] {
        return NULL, NULL, 0;
      }
      var id := nonempty[0];
      ghost var objs := Shown(id, s, b);
      FetchShown(cfg, s, b, t, cl, N, acc, failed, mem.next, mem.descs);
      start, end, result := TakeFromSpan(id, n, objs);
      SlotsAfterFetch(old(mem.next), mem.next, end, id, s, b);
    }

    /** The first n objects of a span's list, or all if there are fewer; a span left without objects goes to the empty ones. */
    method TakeFromSpan(id: nat, n: nat, ghost objs: Chain) returns (start: Addr, end: Addr, result: nat)
      requires id in mem.descs && n > 0 && objs != [] && NoDup(objs) && IsList(mem.next, mem.descs[id].objects, objs)
      modifies mem`next, mem`descs, this`nonempty, this`empty, this`counter
      ensures result == (if n < |objs| then n else |objs|) && start == old(mem.descs)[id].objects && end == objs[result - 1]
      ensures end in old(mem.next) && mem.next == old(mem.next)[end := NULL] && counter == old(counter) - result
      ensures mem.descs == old(mem.descs)[id := Desc(old(mem.next)[end], old(mem.descs)[id].refcount + result)]
      ensures if result == |objs| then nonempty == Unlink(old(nonempty), id) && empty == [id] + Unlink(old(empty), id)
              else nonempty == old(nonempty) && empty == old(empty)
    {
      hide IsList, NoDup, Unlink;
      var rest;
      start := mem.descs[id].objects;
      end, rest, result := TakeObjects(start, n, objs);
      if rest == NULL {
        DllRemove(id);
        empty := [id] + empty;
      }
      mem.descs := mem.descs[id := Desc(rest, mem.descs[id].refcount + result)];
      counter := counter - result;
    }

    /** RemoveRange's way past the cache: fetch from span after span until N objects or no span is left. */
    method RemoveFromSpans(N: nat, ghost s0: State, ghost b0: Book, ghost t: nat, ghost failed: bool)
      returns (start: Addr, end: Addr, result: nat, ghost s: State, ghost b: Book, ghost k: nat)
      requires ValidConfig(cfg) && Shows(s0) && Inv(cfg, s0, b0) && t < |s0.threads|
      requires s0.threads[t] == Running(Fetch(cl, N, [], failed)) && N > 0
      modifies mem`next, mem`descs, this`nonempty, this`empty, this`counter
      ensures Shows(s) && Inv(cfg, s, b) && RunsTo(cfg, s0, s, t, k)
      ensures t < |s.threads| && s.threads[t].Running? && s.threads[t].todo.Fetch?
      ensures var acc := s.threads[t].todo.acc;
              && s.threads[t] == Running(Fetch(cl, N, acc, failed)) && IsList(mem.next, start, acc) && result == |acc| <= N
              && (acc != [] ==> end == acc[|acc| - 1])
      ensures result == N || nonempty == []
    {
      hide Inv, Shows, NextFetch, IsList, RunsTo;
      s, b, k := s0, b0, 0;
      ghost var acc: Chain := [];
      StartsHere(cfg, s0, t);
      EmptyList(mem.next);
      start, end, result := NULL, NULL, 0;
      var more := true;
      while more && result < N
        invariant Shows(s) && Inv(cfg, s, b) && RunsTo(cfg, s0, s, t, k)
        invariant t < |s.threads| && s.threads[t] == Running(Fetch(cl, N, acc, failed))
        invariant IsList(mem.next, start, acc) && result == |acc| <= N
        invariant acc != [] ==> end == acc[|acc| - 1]
        invariant more || nonempty == []
        decreases N - result, more
      {
        var head, tail, n;
        head, tail, n, s, b, k, acc := FetchAndPush(start, N - result, s0, s, b, t, N, acc, failed, k);
        more := n != 0;
        if more {
          if result == 0 { end := tail; }
          result := result + n;
          start := head;
        }
      }
    }

    /** One FetchFromOneSpans and SLL_PushRange. */
    method FetchAndPush(start: Addr, n: nat, ghost s0: State, ghost s: State, ghost b: Book, ghost t: nat, ghost N: nat,
                        ghost acc: Chain, ghost failed: bool, ghost k: nat)
      returns (head: Addr, tail: Addr, taken: nat, ghost s': State, ghost b': Book, ghost k': nat, ghost acc': Chain)
      requires Shows(s) && Inv(cfg, s, b) && RunsTo(cfg, s0, s, t, k)
      requires t < |s.threads| && s.threads[t] == Running(Fetch(cl, N, acc, failed)) && |acc| < N && n == N - |acc|
      requires IsList(mem.next, start, acc)
      modifies mem`next, mem`descs, this`nonempty, this`empty, this`counter
      ensures Shows(s') && Inv(cfg, s', b') && RunsTo(cfg, s0, s', t, k')
      ensures t < |s'.threads| && s'.threads[t] == Running(Fetch(cl, N, acc', failed))
      ensures |acc'| == |acc| + taken <= N && |acc'| >= |acc| && acc'[|acc'| - |acc|..] == acc
      ensures taken == 0 ==> acc' == acc && nonempty == [] && IsList(mem.next, start, acc)
      ensures taken > 0 ==> IsList(mem.next, head, acc') && tail == acc'[taken - 1]
    {
      hide Inv, IsList, ShowsSpans, ShowsSlots, RunsTo, NoDup, NextFetch;
      s', b', k', acc' := s, b, k, acc;
      ghost var before := mem.next;
      head, tail, taken := FetchFromOneSpans(n, s, b, t, N, acc, failed);
      if taken > 0 {
        ghost var sp := s.spans[s.central[cl].nonempty[0]];
        ghost var got := sp.objects[..taken];
        s', k', acc' := NextFetch(s, t, cl, N, acc, failed), k + 1, got + acc;
        b' := FetchRuns(cfg, s0, s, b, t, k, cl, N, acc, failed);
        AccKept(cfg, s, b, t, cl, acc, start, before, mem.next, tail);
        JoinFacts(cfg, s', b', t, cl, N, got, acc, failed);
        ListJoin(mem.next, head, got, start, acc);
        FlightWrite(cfg, s', b', cl, t, tail, start, mem.next, mem.descs, tcSlots[..], usedSlots);
        mem.next := mem.next[tail := start];
      }
    }

    /** ReleaseListToSpans for one object: SLL_Next, then ReleaseToSpans up to where it would give its lock back. */
    method ReleaseNext(obj: Addr, pagemap: map<nat, nat>, ghost s: State, ghost b: Book, ghost t: nat, ghost rest: Chain, ghost k: Cont)
      returns (after: Addr, retired: bool)
      requires Shows(s) && Inv(cfg, s, b) && t < |s.threads| && s.threads[t] == Running(ReleaseList(cl, rest, k)) && rest != []
      requires pagemap == s.pagemap && IsList(mem.next, obj, rest)
      modifies mem`next, mem`descs, this`nonempty, this`empty, this`counter, this`numSpans
      ensures IsClass(cfg, cl) && ReleaseEnabled(cfg, s, cl, rest[0])
      ensures IsList(mem.next, after, rest[1..]) && Shows(NextRelease(cfg, s, t, cl, rest, k))
      ensures retired <==> s.spans[s.pagemap[PageOf(cfg, rest[0])]].refcount == 1
      ensures SameBut(old(mem.next), mem.next, {rest[0]}) && SameDescsBut(old(mem.descs), mem.descs, {s.pagemap[PageOf(cfg, rest[0])]})
    {
      hide Inv, IsList, ShowsSpans, ShowsSlots, SpanOK, CountersOK, Unlink, Carved, ObjectsPerSpan, NextRelease;
      HeadIsNull(mem.next, obj, rest);
      after := mem.next[obj];
      ReleasedObject(cfg, s, b, t, cl, rest, k);
      ghost var id := pagemap[PageOf(cfg, obj)];
      ghost var objs := Shown(id, s, b);
      HeadIsNull(mem.next, mem.descs[id].objects, objs);
      ReleaseShown(cfg, s, b, t, cl, rest, k, mem.next, mem.descs, tcSlots[..], usedSlots);
      MovesAreNext(cfg, s, t, cl, rest, k, mem.descs[id]);
      retired := ReleaseToSpans(obj, pagemap);
    }

    /** ReleaseToSpans: the object goes back on its span's list, unless the span has no other object in use. */
    method ReleaseToSpans(obj: Addr, pagemap: map<nat, nat>) returns (retired: bool)
      requires ValidConfig(cfg) && IsClass(cfg, cl)
      requires PageOf(cfg, obj) in pagemap && pagemap[PageOf(cfg, obj)] in mem.descs
      modifies mem`next, mem`descs, this`nonempty, this`empty, this`counter, this`numSpans
      ensures var id := pagemap[obj / cfg.pageSize];
              var was := old(mem.descs)[id];
              && (retired <==> was.refcount == 1)
              && numSpans == old(numSpans) - (if retired then 1 else 0)
              && counter == old(counter) + 1 - (if retired then cfg.classes[cl].pages * cfg.pageSize / cfg.classes[cl].bytes else 0)
              && mem.next == (if retired then old(mem.next) else old(mem.next)[obj := was.objects])
              && mem.descs == old(mem.descs)[id := if retired then Desc(was.objects, 0) else Desc(obj, was.refcount - 1)]
              && ReleaseMoves(old(nonempty), old(empty), nonempty, empty, id, was)
    {
      hide Unlink;
      var id := pagemap[PageOf(cfg, obj)];
      UnlinkAgain(nonempty, id);
      UnlinkAgain(empty, id);
      if mem.descs[id].objects == NULL {
        DllRemove(id);
        nonempty := [id] + nonempty;
      }
      counter := counter + 1;
      var d := Desc(mem.descs[id].objects, mem.descs[id].refcount - 1);
      retired := d.refcount == 0;
      if retired {
        counter := counter - ObjectsPerSpan(cfg, cl);
        DllRemove(id);
        numSpans := numSpans - 1;
      } else {
        mem.next := mem.next[obj := d.objects];
        d := Desc(obj, d.refcount);
      }
      mem.descs := mem.descs[id := d];
    }

    /** ReleaseListToSpans: object after object, until the list ends or a span has to go to the page heap. */
    method ReleaseListToSpans(first: Addr, pagemap: map<nat, nat>, ghost s0: State, ghost b0: Book, ghost t: nat,
                              ghost chain: Chain, ghost k: Cont)
      returns (start: Addr, retired: bool, ghost s: State, ghost b: Book, ghost n: nat, ghost rest: Chain)
      requires ValidConfig(cfg) && Shows(s0) && Inv(cfg, s0, b0) && t < |s0.threads| && s0.threads[t] == Running(ReleaseList(cl, chain, k))
      requires pagemap == s0.pagemap && IsList(mem.next, first, chain)
      modifies mem`next, mem`descs, this`nonempty, this`empty, this`counter, this`numSpans
      ensures Shows(s) && Inv(cfg, s, b) && RunsTo(cfg, s0, s, t, n) && t < |s.threads| && IsList(mem.next, start, rest)
      ensures if retired then GivesBack(s.threads[t], rest, k)
              else rest == [] && n == |chain| && s.threads[t] == Running(ReleaseList(cl, [], k))
    {
      hide Inv, Shows, IsList, RunsTo, NextRelease, ReleaseEnabled;
      s, b, n, rest := s0, b0, 0, chain;
      StartsHere(cfg, s0, t);
      start, retired := first, false;
      HeadIsNull(mem.next, start, rest);
      while start != NULL && !retired
        invariant Shows(s) && Inv(cfg, s, b) && RunsTo(cfg, s0, s, t, n) && t < |s.threads| && s.pagemap == pagemap
        invariant IsList(mem.next, start, rest) && (start == NULL <==> rest == [])
        invariant if retired then GivesBack(s.threads[t], rest, k)
                  else s.threads[t] == Running(ReleaseList(cl, rest, k)) && n + |rest| == |chain|
        decreases |rest|
      {
        start, retired := ReleaseNext(start, pagemap, s, b, t, rest, k);
        s, b := ReleaseRuns(cfg, s0, s, b, t, n, cl, rest, k);
        rest, n := rest[1..], n + 1;
        HeadIsNull(mem.next, start, rest);
      }
    }

    /** InsertRange up to the search for a victim: into a slot, onto the spans, or on to EvictRandomSizeClass. */
    method InsertRange(start: Addr, end: Addr, N: nat, ghost s: State, ghost b: Book, ghost t: nat,
                       ghost chain: Chain) returns (decision: Decision)
      requires Shows(s) && Inv(cfg, s, b) && IsClass(cfg, cl) && t < |s.threads| && s.threads[t] == Running(InsertBody(cl, chain))
      requires N == |chain| && ShowsSlot(mem.next, TCEntry(start, end), chain)
      modifies this`usedSlots, tcSlots
      ensures Shows(NextInsert(cfg, s, t, cl, chain))
      ensures NextInsert(cfg, s, t, cl, chain).threads == s.threads[t :=
              match decision
              case Pushed => Idle
              case ReleaseChain => Running(ReleaseList(cl, chain, Return))
              case FindVictim => Running(TryEvict(cl, chain, false))]
      ensures decision.Pushed? <==> N == cfg.classes[cl].batch && old(usedSlots) < cacheSize
      ensures decision.FindVictim? <==> N == cfg.classes[cl].batch && old(usedSlots) >= cacheSize && cacheSize != maxCacheSize
      ensures if decision.Pushed? then Appended(old(tcSlots[..]), old(usedSlots), tcSlots[..], usedSlots, TCEntry(start, end))
              else usedSlots == old(usedSlots) && tcSlots[..] == old(tcSlots[..])
    {
      hide Inv, ShowsSpans, ShowsSlots, ShowsSlot, MaxCacheSize;
      OnlyLists(mem.next, mem.descs, s.central[cl], s.spans);
      CacheLimit(cfg, s, b, cl);
      SlotCount(mem.next, tcSlots[..], usedSlots, s.central[cl].slots);
      decision := ReleaseChain;
      if N == cfg.classes[cl].batch {
        if usedSlots < cacheSize {
          PushEntry(TCEntry(start, end), chain, s.central[cl].slots);
          decision := Pushed;
        } else if cacheSize != maxCacheSize {
          decision := FindVictim;
        }
      }
    }

    /** tc_slots_[used_slots_++] = entry. */
    method PushEntry(entry: TCEntry, ghost chain: Chain, ghost slots: seq<Chain>)
      requires ShowsSlots(mem.next, tcSlots[..], usedSlots, slots) && ShowsSlot(mem.next, entry, chain) && usedSlots < tcSlots.Length
      modifies this`usedSlots, tcSlots
      ensures ShowsSlots(mem.next, tcSlots[..], usedSlots, slots + [chain])
      ensures Appended(old(tcSlots[..]), old(usedSlots), tcSlots[..], usedSlots, entry)
    {
      hide ShowsSlot;
      tcSlots[usedSlots] := entry;
      usedSlots := usedSlots + 1;
    }

    /** MakeCacheSpace and InsertRange after an eviction that gave this class a slot. */
    method AfterEviction(start: Addr, end: Addr, ghost s: State, ghost b: Book, ghost t: nat, ghost chain: Chain,
                         ghost force: bool) returns (decision: Decision)
      requires Shows(s) && Inv(cfg, s, b) && IsClass(cfg, cl) && t < |s.threads|
      requires s.threads[t] == Running(AfterShrink(cl, chain, force, true))
      requires ShowsSlot(mem.next, TCEntry(start, end), chain)
      modifies this`usedSlots, this`cacheSize, tcSlots
      ensures Shows(NextAfterShrink(cfg, s, t, cl, chain, force, true))
      ensures var th := if decision.Pushed? then Idle else Running(ReleaseList(cl, chain, Return));
              NextAfterShrink(cfg, s, t, cl, chain, force, true).threads == s.threads[t := th]
      ensures decision == if old(cacheSize) < maxCacheSize then Pushed else ReleaseChain
      ensures if decision.Pushed? then
                cacheSize == old(cacheSize) + 1 && Appended(old(tcSlots[..]), old(usedSlots), tcSlots[..], usedSlots, TCEntry(start, end))
              else cacheSize == old(cacheSize) && usedSlots == old(usedSlots) && tcSlots[..] == old(tcSlots[..])
    {
      hide Inv, ShowsSpans, ShowsSlots, ShowsSlot, MaxCacheSize;
      OnlyLists(mem.next, mem.descs, s.central[cl], s.spans);
      CacheLimit(cfg, s, b, cl);
      SlotCount(mem.next, tcSlots[..], usedSlots, s.central[cl].slots);
      decision := ReleaseChain;
      if cacheSize < maxCacheSize {
        cacheSize := cacheSize + 1;
        PushEntry(TCEntry(start, end), chain, s.central[cl].slots);
        decision := Pushed;
      }
    }

    /** RemoveRange's look at the cache: the whole batch of the top slot, if one was asked for. */
    method RemoveFromCache(N: nat, ghost s: State, ghost b: Book, ghost t: nat) returns (hit: bool, start: Addr, end: Addr)
      requires Shows(s) && Inv(cfg, s, b) && IsClass(cfg, cl) && t < |s.threads| && s.threads[t] == Running(RemoveBody(cl, N))
      modifies this`usedSlots
      ensures Shows(NextRemove(cfg, s, t, cl, N))
      ensures NextRemove(cfg, s, t, cl, N).threads == s.threads[t :=
              if hit then Idle else if nonempty == [] then Waiting(AllocSpan(cl, N)) else Running(Fetch(cl, N, [], false))]
      ensures hit ==> s.central[cl].slots != [] && ShowsSlot(mem.next, TCEntry(start, end), s.central[cl].slots[|s.central[cl].slots| - 1])
      ensures hit ==> |s.central[cl].slots[|s.central[cl].slots| - 1]| == N
      ensures hit <==> N == cfg.classes[cl].batch && old(usedSlots) > 0
      ensures if hit then usedSlots == old(usedSlots) - 1 && usedSlots < tcSlots.Length && TCEntry(start, end) == tcSlots[usedSlots]
              else usedSlots == old(usedSlots) && start == NULL && end == NULL
    {
      hide Inv, ShowsSpans, ShowsSlot, CacheOK;
      OnlyLists(mem.next, mem.descs, s.central[cl], s.spans);
      hit, start, end := false, NULL, NULL;
      if N == cfg.classes[cl].batch && usedSlots > 0 {
        usedSlots := usedSlots - 1;
        start, end := tcSlots[usedSlots].head, tcSlots[usedSlots].tail;
        assert ShowsSlot(mem.next, tcSlots[..][usedSlots], s.central[cl].slots[usedSlots]);
        SlotIsBatch(cfg, s, b, cl, usedSlots);
        hit := true;
      }
    }

    /** ShrinkCache under the victim's lock, which is this class's. */
    method ShrinkCache(force: bool, ghost s: State, ghost b: Book, ghost t: nat, ghost home: nat, ghost chain: Chain) returns (r: Shrunk)
      requires Shows(s) && Inv(cfg, s, b) && t < |s.threads| && s.threads[t] == Running(ShrinkBody(home, chain, cl, force))
      modifies this`usedSlots, this`cacheSize
      ensures |s.central[cl].slots| <= s.central[cl].cacheSize
      ensures Shows(NextShrink(s, t, home, chain, cl, force))
      ensures r.ChainOut? ==> s.central[cl].slots != [] && IsList(mem.next, r.head, s.central[cl].slots[|s.central[cl].slots| - 1])
      ensures r.Refused? <==> old(cacheSize) == 0 || (old(usedSlots) == old(cacheSize) && !force)
      ensures r.SlotGiven? <==> old(cacheSize) != 0 && old(usedSlots) != old(cacheSize)
      ensures cacheSize == old(cacheSize) - (if r.Refused? then 0 else 1)
      ensures if r.ChainOut? then usedSlots == old(usedSlots) - 1 && usedSlots < tcSlots.Length && r.head == tcSlots[usedSlots].head
              else usedSlots == old(usedSlots)
      ensures NextShrink(s, t, home, chain, cl, force).threads == s.threads[t :=
              match r
              case Refused => Waiting(AfterShrink(home, chain, force, false))
              case SlotGiven => Waiting(AfterShrink(home, chain, force, true))
              case ChainOut(_) => Running(ReleaseList(cl, s.central[cl].slots[|s.central[cl].slots| - 1], Resume(home, chain)))]
    {
      hide Inv, ShowsSpans, MaxCacheSize, IsList;
      OnlyLists(mem.next, mem.descs, s.central[cl], s.spans);
      CacheLimit(cfg, s, b, cl);
      if cacheSize == 0 {
        return Refused;
      }
      if usedSlots == cacheSize {
        if !force {
          return Refused;
        }
        cacheSize := cacheSize - 1;
        usedSlots := usedSlots - 1;
        assert ShowsSlot(mem.next, tcSlots[..][usedSlots], s.central[cl].slots[usedSlots]);
        return ChainOut(tcSlots[usedSlots].head);
      }
      cacheSize := cacheSize - 1;
      return SlotGiven;
    }

    /** Populate once it has its lock back: the carved span becomes the first non-empty one. */
    method ListSpan(id: nat, head: Addr, num: nat, ghost s: State, ghost b: Book, ghost t: nat, ghost n: nat)
      requires Shows(s) && Inv(cfg, s, b) && IsClass(cfg, cl) && t < |s.threads| && s.threads[t] == Running(AddSpan(cl, n, Some(id)))
      requires id in s.spans && IsList(mem.next, head, s.spans[id].objects) && num == |s.spans[id].objects|
      modifies mem`descs, this`nonempty, this`numSpans, this`counter
      ensures s.spans[id].refcount == 0 && Enabled(cfg, s, t, NoChoice) && Shows(Next(cfg, s, t, NoChoice))
      ensures nonempty == [id] + old(nonempty) && numSpans == old(numSpans) + 1 && counter == old(counter) + num
      ensures mem.descs == old(mem.descs)[id := Desc(head, 0)]
    {
      hide Inv, IsList, ShowsSlots, SpanOK;
      NewSpanFacts(cfg, s, b, t, cl, n, id);
      mem.descs := mem.descs[id := Desc(head, 0)];
      nonempty := [id] + nonempty;
      numSpans := numSpans + 1;
      counter := counter + num;
    }

    /** The list of a span on this class's lists. */
    ghost method Shown(id: nat, s: State, b: Book) returns (objs: Chain)
      requires Shows(s) && Inv(cfg, s, b) && OnLists(s.central[cl], id)
      ensures id in mem.descs && id in s.spans && mem.descs[id].refcount == s.spans[id].refcount
      ensures objs == s.spans[id].objects && NoDup(objs) && IsList(mem.next, mem.descs[id].objects, objs)
      ensures id in nonempty ==> objs != []
    {
      hide Inv, IsList, SpanOK, CountersOK, ShowsSlots;
      ListBasics(cfg, s, b, cl, id);
      objs := s.spans[id].objects;
    }

    ghost method SlotsAfterFetch(before: Words, after: Words, end: Addr, id: nat, s: State, b: Book)
      requires ValidConfig(cfg) && cl < |s.central| && Inv(cfg, s, b) && OnLists(s.central[cl], id) && id in s.spans
      requires end in s.spans[id].objects
      requires after == before[end := NULL] && ShowsSlots(before, tcSlots[..], usedSlots, s.central[cl].slots)
      ensures SameBut(before, after, {end}) && ShowsSlots(after, tcSlots[..], usedSlots, s.central[cl].slots)
    {
      hide Inv, ShowsSlots, Untouched;
      SpanObjectAlone(cfg, s, b, cl, id, end);
      SlotsStillShown(before, after, {end}, tcSlots[..], usedSlots, s, cl, id);
    }
  }

  lemma StartsHere(cfg: Config, s: State, t: nat)
    requires ValidConfig(cfg)
    ensures RunsTo(cfg, s, s, t, 0)
  {
  }

  lemma EmptyList(next: Words)
    ensures IsList(next, NULL, [])
  {
  }

  /** The chain fetched so far survives the cut in another span's list. */
  lemma AccKept(cfg: Config, s: State, b: Book, t: nat, cl: nat, acc: Chain, start: Addr, before: Words, after: Words, end: Addr)
    requires ValidConfig(cfg) && Inv(cfg, s, b) && t < |s.threads| && Flight(s.threads[t]) == acc && IsList(before, start, acc)
    requires cl < |s.central| && s.central[cl].nonempty != [] && s.central[cl].nonempty[0] in s.spans
    requires end in s.spans[s.central[cl].nonempty[0]].objects && SameBut(before, after, {end})
    ensures IsList(after, start, acc)
  {
    hide Inv, IsList;
    assert s.central[cl].nonempty[0] in s.central[cl].nonempty;
    SpanObjectAlone(cfg, s, b, cl, s.central[cl].nonempty[0], end);
    ListKept(before, after, {end}, start, acc);
  }

  /** What is in a thread's hands has no object twice. */
  lemma JoinFacts(cfg: Config, s: State, b: Book, t: nat, cl: nat, N: nat, got: Chain, acc: Chain, failed: bool)
    requires ValidConfig(cfg) && Inv(cfg, s, b) && t < |s.threads| && s.threads[t] == Running(Fetch(cl, N, got + acc, failed)) && got != []
    ensures NoDup(got) && (forall a :: a in got ==> a !in acc) && got[|got| - 1] in Flight(s.threads[t])
    ensures |got + acc| <= N
  {
    hide Inv;
    Basics(cfg, s, b, t);
    var all := got + acc;
    forall a | a in got ensures a !in acc {
      var i :| 0 <= i < |got| && got[i] == a;
      forall j | 0 <= j < |acc| ensures acc[j] != a {
        assert all[i] != all[|got| + j];
      }
    }
    assert forall i :: 0 <= i < |got| ==> all[i] == got[i];
  }

  /** ReleaseToSpans is a step of the machine. */
  lemma ReleaseRuns(cfg: Config, s0: State, s: State, b: Book, t: nat, n: nat, c: nat, rest: Chain, k: Cont) returns (s': State, b': Book)
    requires ValidConfig(cfg) && Inv(cfg, s, b) && RunsTo(cfg, s0, s, t, n)
    requires t < |s.threads| && s.threads[t] == Running(ReleaseList(c, rest, k)) && rest != []
    ensures |s.central| == |cfg.classes| && IsClass(cfg, c) && ReleaseEnabled(cfg, s, c, rest[0])
    ensures s' == NextRelease(cfg, s, t, c, rest, k) && Inv(cfg, s', b') && RunsTo(cfg, s0, s', t, n + 1)
    ensures s'.pagemap == s.pagemap && t < |s'.threads|
    ensures if s.spans[s.pagemap[PageOf(cfg, rest[0])]].refcount == 1
            then GivesBack(s'.threads[t], rest[1..], k)
            else s'.threads[t] == Running(ReleaseList(c, rest[1..], k))
  {
    hide Inv, Carved, ObjectsPerSpan, Register;
    ReleasedObject(cfg, s, b, t, c, rest, k);
    assert Enabled(cfg, s, t, NoChoice);
    s' := NextRelease(cfg, s, t, c, rest, k);
    assert s' == Next(cfg, s, t, NoChoice);
    b' := ReleaseGood(cfg, s, b, t, c, rest, k);
  }

  lemma CacheLimit(cfg: Config, s: State, b: Book, c: nat)
    requires ValidConfig(cfg) && Inv(cfg, s, b) && c < |s.central|
    ensures |s.central[c].slots| <= s.central[c].cacheSize <= s.central[c].maxCacheSize <= MAX_TRANSFER_ENTRIES
  {
    hide Inv, MaxCacheSize;
    CacheBound(cfg, s, b, c);
    MaxCacheBound(cfg, c);
  }

  lemma SlotCount(next: Words, entries: seq<TCEntry>, used: nat, slots: seq<Chain>)
    requires ShowsSlots(next, entries, used, slots)
    ensures used == |slots|
  {
  }

  lemma SlotIsBatch(cfg: Config, s: State, b: Book, c: nat, i: nat)
    requires ValidConfig(cfg) && Inv(cfg, s, b) && IsClass(cfg, c) && c < |s.central| && i < |s.central[c].slots|
    ensures |s.central[c].slots[i]| == cfg.classes[c].batch
  {
    hide MaxCacheSize;
    CacheBasics(cfg, s, c);
  }

  /** The span that a thread is about to list is not listed yet and has all its objects. */
  lemma NewSpanFacts(cfg: Config, s: State, b: Book, t: nat, cl: nat, n: nat, id: nat)
    requires ValidConfig(cfg) && Inv(cfg, s, b) && t < |s.threads| && s.threads[t] == Running(AddSpan(cl, n, Some(id))) && cl < |s.central|
    ensures id in s.spans && s.spans[id].refcount == 0 && !OnLists(s.central[cl], id)
  {
    hide Inv, Carved, ObjectsPerSpan;
    Basics(cfg, s, b, t);
    PrivateSpan(cfg, s, b, id);
    if OnLists(s.central[cl], id) {
      ListBasics(cfg, s, b, cl, id);
    }
  }

  lemma PrivateSpan(cfg: Config, s: State, b: Book, id: nat)
    requires ValidConfig(cfg) && Inv(cfg, s, b) && id in s.spans && id in b.keeper && b.keeper[id].Private?
    ensures s.spans[id].refcount == 0
  {
    assert SpanOK(cfg, id, s.spans[id], b.keeper[id]);
  }

  lemma SameWords(next: Words, objs: Chain)
    ensures SameBut(next, next, set a | a in objs)
  {
  }

  lemma NothingLinked(next: Words, objs: Chain)
    requires objs != []
    ensures Linked(next, objs, 0)
  {
  }

  lemma CarvedFacts(cfg: Config, id: nat, c: nat)
    requires ValidConfig(cfg) && IsClass(cfg, c) && id > 0
    ensures |Carved(cfg, id, c)| == ObjectsPerSpan(cfg, c) >= 1 && NoDup(Carved(cfg, id, c))
    ensures forall j :: 0 <= j < |Carved(cfg, id, c)| ==> Carved(cfg, id, c)[j] != NULL
  {
    AtLeastOneObject(cfg, c);
    CarvedNoDup(cfg, id, c);
    MulLe(1, id, cfg.pageSize);
    forall j | 0 <= j < ObjectsPerSpan(cfg, c) ensures Carved(cfg, id, c)[j] != NULL {
      CarvedAt(cfg, id, c, j);
    }
  }
}
