/** When a pipe() that fails loses the page its caller had at the data address of the first
    descriptor: the exact condition, in terms of what the caller's memory was before the call. */
module PipeFail {
  import opened Wrappers
  import opened Mmu
  import opened Pmap
  import opened MemCalls
  import opened PipeMake
  import opened Space

  // ---------- what an insertion does to the free list ----------

  /** page_insert of a page that is not yet at k: how the free list and the other counts change. */
  lemma InsertFree(s: State, k: Key, p: nat, fl: Flags, z: nat)
    requires Inv(s) && k.d in s.dirs && k.x < UTOPX && k.t < NWORD && Mappable(s, p) && z < NPAGE && z != p
    requires PageInsert(s, k, p, fl).1 && (Named(s, AtPte(k)) ==> At(s, AtPte(k)).pfn != p)
    ensures var r := PageInsert(s, k, p, fl).0;
            && Shape(r)
            && r.free == (if !Named(s, AtPte(k)) then (if HasTable(s, k.d, k.x) then s.free else s.free[1..])
                          else if At(s, AtPte(k)).pfn < NPAGE && s.ref[At(s, AtPte(k)).pfn] == 1
                          then [At(s, AtPte(k)).pfn] + s.free
                          else s.free)
            && (z !in s.free && (Named(s, AtPte(k)) ==> z != At(s, AtPte(k)).pfn) ==> r.ref[z] == s.ref[z])
  {
    PageRemoveInv(s, k);
    WalkInv(PageRemove(s, k), k.d, k.x);
    PageInsertAllOrNothing(s, k, p, fl);
    hide CleanAt, Clean, Count, Counted, Distinct, Bounded, FreeList, KeepsData, Entries;
    if Named(s, AtPte(k)) {
      assert HasTable(PageRemove(s, k), k.d, k.x);
    } else if !HasTable(s, k.d, k.x) {
      assert s.free[0] in s.free;
    }
  }

  /** sys_mem_alloc in one's own space, with the permissions pipe() uses: when it succeeds, and what
      it does to the free list, the tables and the other counts. */
  lemma AllocFree(s: State, k: Key, z: nat)
    requires Inv(s) && k.d in s.dirs && k.x < UTOPX && k.t < NWORD && z < NPAGE
    ensures var (r, c) := MemAlloc(s, k, SHARED);
            && Inv(r) && (c.Ok? <==> |s.free| >= if HasTable(s, k.d, k.x) then 1 else 2)
            && (c.Ok? ==>
                  && (forall x: nat :: HasTable(r, k.d, x) <==> HasTable(s, k.d, x) || x == k.x)
                  && (k !in Flat(s) ==> r.free == s.free[if HasTable(s, k.d, k.x) then 1 else 2..])
                  && (k in Flat(s) ==>
                        && HasTable(s, k.d, k.x) && Flat(s)[k].pfn < NPAGE
                        && r.free == (if s.ref[Flat(s)[k].pfn] == 1 then [Flat(s)[k].pfn] else []) + s.free[1..])
                  && (z !in s.free && (k in Flat(s) ==> z != Flat(s)[k].pfn) ==> r.ref[z] == s.ref[z]))
  {
    AllocOk(s, k);
    hide *;
    if MemAlloc(s, k, SHARED).1.Ok? {
      AllocMakesTables(s, k);
      AllocList(s, k);
      if z !in s.free && (k in Flat(s) ==> z != Flat(s)[k].pfn) { AllocRef(s, k, z); }
    }
  }

  lemma AllocOk(s: State, k: Key)
    requires Inv(s) && k.d in s.dirs && k.x < UTOPX && k.t < NWORD
    ensures Inv(MemAlloc(s, k, SHARED).0)
    ensures MemAlloc(s, k, SHARED).1.Ok? <==> |s.free| >= if HasTable(s, k.d, k.x) then 1 else 2
  {
    MemAllocInv(s, k, SHARED);
    MemAllocCode(s, k, SHARED);
    hide Inv, MemAlloc, Flat, Entries;
  }

  lemma AllocMakesTables(s: State, k: Key)
    requires Inv(s) && k.d in s.dirs && k.x < UTOPX && k.t < NWORD && s.free != [] && MemAlloc(s, k, SHARED).1.Ok?
    ensures Inv(MemAlloc(s, k, SHARED).0)
    ensures forall x: nat :: HasTable(MemAlloc(s, k, SHARED).0, k.d, x) <==> HasTable(s, k.d, x) || x == k.x
  {
    TakenIs(s);
    AllocInserts(s, k);
    assert Shape(s);
    hide *;
    AllocTables(s, Taken(s), k, s.free[0]);
  }

  lemma AllocList(s: State, k: Key)
    requires Inv(s) && k.d in s.dirs && k.x < UTOPX && k.t < NWORD && s.free != [] && MemAlloc(s, k, SHARED).1.Ok?
    ensures |s.free| >= if HasTable(s, k.d, k.x) then 1 else 2
    ensures k !in Flat(s) ==>
              MemAlloc(s, k, SHARED).0.free == s.free[1..][if HasTable(s, k.d, k.x) then 0 else 1..]
    ensures k in Flat(s) ==>
              && HasTable(s, k.d, k.x) && Flat(s)[k].pfn < NPAGE
              && MemAlloc(s, k, SHARED).0.free
                 == (if s.ref[Flat(s)[k].pfn] == 1 then [Flat(s)[k].pfn] else []) + s.free[1..]
  {
    hide *;
    InvShape(s);
    TakenIs(s);
    AllocInserts(s, k);
    AllocOk(s, k);
    AllocTables(s, Taken(s), k, s.free[0]);
    AllocCounts(s, Taken(s), k, s.free[0], 0);
  }

  lemma AllocRef(s: State, k: Key, z: nat)
    requires Inv(s) && k.d in s.dirs && k.x < UTOPX && k.t < NWORD && s.free != [] && MemAlloc(s, k, SHARED).1.Ok?
    requires z < NPAGE && z !in s.free && (k in Flat(s) ==> z != Flat(s)[k].pfn)
    ensures Shape(MemAlloc(s, k, SHARED).0) && MemAlloc(s, k, SHARED).0.ref[z] == s.ref[z]
  {
    hide *;
    InvShape(s);
    TakenIs(s);
    AllocInserts(s, k);
    AllocCounts(s, Taken(s), k, s.free[0], z);
  }

  /** The first free page taken off the list, cleared and pinned. */
  function Taken(s: State): State
    requires Shape(s) && s.free != []
  {
    var (p, a) := PageAlloc(s).value;
    Pin(a, p)
  }

  lemma TakenIs(s: State)
    requires Inv(s) && s.free != []
    ensures var b := Taken(s);
            && s.free[0] < NPAGE && Inv(b) && Entries(b) == Entries(s) && b.dirs == s.dirs && Mappable(b, s.free[0])
            && b.free == s.free[1..] && b.ref == s.ref[s.free[0] := s.ref[s.free[0]] + 1]
            && forall l :: l in Entries(s) ==> Entries(s)[l].pfn != s.free[0]
  {
    assert s.free[0] in s.free;
    PinAllocated(s);
    FreeUnnamed(s, s.free[0]);
    hide Inv, Entries, Mappable;
  }

  /** sys_mem_alloc is page_insert of that page. */
  lemma AllocInserts(s: State, k: Key)
    requires Inv(s) && k.d in s.dirs && k.x < UTOPX && k.t < NWORD && s.free != [] && s.free[0] < NPAGE
    requires Inv(Taken(s)) && k.d in Taken(s).dirs
    ensures var (r, ok) := PageInsert(Taken(s), k, s.free[0], SHARED);
            MemAlloc(s, k, SHARED) == (r, if ok then Ok else NoMem)
  {
    hide Inv, PageInsert;
  }

  lemma AllocTables(s: State, b: State, k: Key, p: nat)
    requires Inv(s) && Inv(b) && Entries(b) == Entries(s) && b.dirs == s.dirs && k.d in s.dirs && k.x < UTOPX && k.t < NWORD
    requires Mappable(b, p)
    ensures forall x: nat :: HasTable(b, k.d, x) <==> HasTable(s, k.d, x)
    ensures PageInsert(b, k, p, SHARED).1 ==>
              var r := PageInsert(b, k, p, SHARED).0;
              Inv(r) && forall x: nat :: HasTable(r, k.d, x) <==> HasTable(s, k.d, x) || x == k.x
  {
    forall x: nat ensures HasTable(b, k.d, x) <==> HasTable(s, k.d, x) { TableEntry(s, k.d, x); TableEntry(b, k.d, x); }
    if PageInsert(b, k, p, SHARED).1 {
      PageInsertInv(b, k, p, SHARED);
      var r := PageInsert(b, k, p, SHARED).0;
      TableEntry(b, k.d, k.x);
      hide Inv, PageInsert, Entries, Mappable;
      forall x: nat ensures HasTable(r, k.d, x) <==> HasTable(s, k.d, x) || x == k.x {
        TableEntry(s, k.d, x);
        TableEntry(r, k.d, x);
      }
    }
  }

  lemma TableEntry(s: State, d: nat, x: nat)
    requires Inv(s)
    ensures HasTable(s, d, x) <==> AtPde(d, x) in Entries(s)
  {}

  lemma AllocCounts(s: State, b: State, k: Key, p: nat, z: nat)
    requires Inv(s) && Inv(b) && Entries(b) == Entries(s) && b.dirs == s.dirs && k.d in s.dirs && k.x < UTOPX && k.t < NWORD
    requires Mappable(b, p) && z < NPAGE && PageInsert(b, k, p, SHARED).1 && s.free != [] && p == s.free[0]
    requires b.free == s.free[1..] && b.ref == s.ref[p := s.ref[p] + 1]
    requires forall l :: l in Entries(s) ==> Entries(s)[l].pfn != p
    ensures var r := PageInsert(b, k, p, SHARED).0;
            && Shape(r)
            && (k !in Flat(s) ==> r.free == if HasTable(b, k.d, k.x) then b.free else b.free[1..])
            && (k in Flat(s) ==>
                  && HasTable(s, k.d, k.x) && Flat(s)[k].pfn < NPAGE
                  && r.free == (if s.ref[Flat(s)[k].pfn] == 1 then [Flat(s)[k].pfn] else []) + b.free)
            && (z !in s.free && (k in Flat(s) ==> z != Flat(s)[k].pfn) ==> r.ref[z] == s.ref[z])
  {
    hide Inv, PageInsert, Entries, Mappable, Flat, Named, At;
    InvShape(s);
    InvShape(b);
    assert s.free[0] in s.free;
    PteEntry(s, k);
    PteEntry(b, k);
    InsertFree(b, k, p, SHARED, if z != p then z else if p == 0 then 1 else 0);
  }

  lemma PteEntry(s: State, k: Key)
    requires Inv(s)
    ensures Named(s, AtPte(k)) <==> k in Flat(s)
    ensures k in Flat(s) ==> AtPte(k) in Entries(s) && Entries(s)[AtPte(k)] == Flat(s)[k] == At(s, AtPte(k))
                             && HasTable(s, k.d, k.x) && Flat(s)[k].pfn < NPAGE
  {}

  // ---------- the second descriptor ----------

  lemma {:induction false} FdSkip(s: State, d: nat, m: nat, i: nat)
    requires Shape(s) && m <= i < MAXFD - 1 && forall k :: m <= k <= i ==> Named(s, AtPte(FdKey(d, k)))
    ensures FdFrom(s, d, m) == FdFrom(s, d, i + 1)
    decreases i - m
  {
    if m < i { FdSkip(s, d, m + 1, i); }
  }

  lemma {:induction false} FdSame(s: State, a: State, d: nat, m: nat)
    requires Shape(s) && Shape(a) && m < MAXFD
    requires forall k: nat :: m <= k < MAXFD ==> (Named(a, AtPte(FdKey(d, k))) <==> Named(s, AtPte(FdKey(d, k))))
    ensures FdFrom(a, d, m) == FdFrom(s, d, m)
    decreases MAXFD - m
  {
    if m < MAXFD - 1 { FdSame(s, a, d, m + 1); }
  }

  /** With its first fd page mapped, the scan finds what it would find in the caller's memory beyond
      the first descriptor. */
  lemma SecondFd(s: State, a: State, d: nat, i: nat, w: Word)
    requires Inv(s) && Inv(a) && FdFrom(s, d, 0) == Some(i) && Flat(a) == Flat(s)[FdKey(d, i) := w]
    ensures i + 1 < MAXFD && FdFrom(a, d, 0) == FdFrom(s, d, i + 1)
  {
    assert Shape(s) && Shape(a);
    hide Inv, Flat, Named, Shape;
    forall k: nat ensures Named(a, AtPte(FdKey(d, k))) <==> k == i || Named(s, AtPte(FdKey(d, k))) {
      OneMore(s, a, d, i, w, k);
    }
    SecondScan(s, a, d, i);
  }

  lemma SecondScan(s: State, a: State, d: nat, i: nat)
    requires Shape(s) && Shape(a) && FdFrom(s, d, 0) == Some(i)
    requires forall k: nat :: Named(a, AtPte(FdKey(d, k))) <==> k == i || Named(s, AtPte(FdKey(d, k)))
    ensures i + 1 < MAXFD && FdFrom(a, d, 0) == FdFrom(s, d, i + 1)
  {
    assert forall k: nat :: k < i ==> Named(s, AtPte(FdKey(d, k)));
    hide Named, Shape, FdFrom;
    FdSkip(a, d, 0, i);
    FdSame(s, a, d, i + 1);
  }

  lemma OneMore(s: State, a: State, d: nat, i: nat, w: Word, k: nat)
    requires Inv(s) && Inv(a) && Flat(a) == Flat(s)[FdKey(d, i) := w]
    ensures Named(a, AtPte(FdKey(d, k))) <==> k == i || Named(s, AtPte(FdKey(d, k)))
  {
    PteEntry(s, FdKey(d, k));
    PteEntry(a, FdKey(d, k));
    hide Inv, Flat, Named;
    assert FdKey(d, k) == FdKey(d, i) <==> k == i;
  }

  // ---------- the condition ----------

  /** Replacing the page mapped at k would free it: nothing else refers to it. */
  predicate Frees(s: State, k: Key)
    requires Shape(s)
  {
    Named(s, AtPte(k)) && At(s, AtPte(k)).pfn < NPAGE && s.ref[At(s, AtPte(k)).pfn] == 1
  }

  /** When pipe() replaces the caller's data page and then fails: it finds two descriptors i and j;
      the caller has a page at i's data address that is referenced otherwise, too, so that replacing it
      frees nothing; there is no table for j's data address; and just the three pages it allocates
      are free, with a fourth if the descriptor table has no page-table page yet. */
  predicate Loses(s: State, d: nat)
    requires Shape(s) && d in s.dirs
  {
    var i := FdFrom(s, d, 0);
    i.Some? && LosesWith(s, d, i.value, FdFrom(s, d, i.value + 1))
  }

  predicate LosesWith(s: State, d: nat, i: nat, j: Option<nat>)
    requires Shape(s)
  {
    && j.Some? && Named(s, AtPte(DataKey(d, i))) && !Frees(s, DataKey(d, i)) && !HasTable(s, d, FILEX + j.value)
    && |s.free| == if HasTable(s, d, FDX) then 3 else 4
  }

  /** The last mapping fails exactly if it needs a table and no page is left. */
  lemma MapFails(e: State, src: Key, dst: Key)
    requires Inv(e) && Va(src) && Va(dst) && src.x < UTOPX && dst.x < UTOPX && src.d in e.dirs && dst.d in e.dirs
    requires src in Flat(e)
    ensures !MemMap(e, src, dst, SHARED).1.Ok? <==> !HasTable(e, dst.d, dst.x) && e.free == []
  {
    MemMapCode(e, src, dst, SHARED);
    hide Inv, MemMap, Flat, Entries;
  }

  lemma FreesAfter(s: State, r: State, k: Key)
    requires Inv(s) && Inv(r) && k in Flat(s) && k in Flat(r) && Flat(r)[k] == Flat(s)[k]
    requires Flat(s)[k].pfn < NPAGE && r.ref[Flat(s)[k].pfn] == s.ref[Flat(s)[k].pfn]
    ensures Frees(r, k) <==> Frees(s, k)
  {
    PteEntry(s, k);
    PteEntry(r, k);
  }

  lemma FreesCount(s: State, k: Key)
    requires Inv(s) && k in Flat(s)
    ensures Flat(s)[k].pfn < NPAGE && (Frees(s, k) <==> s.ref[Flat(s)[k].pfn] == 1)
  {
    PteEntry(s, k);
  }

  /** The second fd page. */
  lemma FdStep(a: State, d: nat, j: nat, k: Key)
    requires Inv(a) && d in a.dirs && j < MAXFD && HasTable(a, d, FDX) && FdKey(d, j) !in Flat(a)
    requires k in Flat(a) && k != FdKey(d, j)
    ensures var (b, c) := MemAlloc(a, FdKey(d, j), SHARED);
            && Inv(b) && (c.Ok? <==> a.free != [])
            && (c.Ok? ==>
                  && b.dirs == a.dirs && b.free == a.free[1..] && k in Flat(b) && (Frees(b, k) <==> Frees(a, k))
                  && forall x: nat :: HasTable(b, d, x) <==> HasTable(a, d, x))
  {
    PteEntry(a, k);
    MemAllocInv(a, FdKey(d, j), SHARED);
    AllocFree(a, FdKey(d, j), Flat(a)[k].pfn);
    NotFree(a, k);
    hide Inv, Flat, MemAlloc, HasTable, Frees;
    if MemAlloc(a, FdKey(d, j), SHARED).1.Ok? { FreesAfter(a, MemAlloc(a, FdKey(d, j), SHARED).0, k); }
  }

  /** The data page, in the place of the caller's. */
  lemma DataStep(b: State, d: nat, k: Key)
    requires Inv(b) && d in b.dirs && k.d == d && k.x < UTOPX && k.t < NWORD && k in Flat(b)
    ensures var (e, c) := MemAlloc(b, k, SHARED);
            && Inv(e) && (c.Ok? <==> b.free != [])
            && (c.Ok? ==>
                  && e.dirs == b.dirs && k in Flat(e) && (e.free == [] <==> |b.free| == 1 && !Frees(b, k))
                  && forall x: nat :: HasTable(e, d, x) <==> HasTable(b, d, x))
  {
    PteEntry(b, k);
    FreesCount(b, k);
    MemAllocInv(b, k, SHARED);
    AllocFree(b, k, 0);
    hide Inv, Flat, MemAlloc, HasTable, Frees;
  }

  lemma RestIs(a: State, d: nat, i: nat, j: nat, b: State, e: State)
    requires Inv(a) && Inv(b) && Inv(e) && d in a.dirs && d in b.dirs && d in e.dirs && i < MAXFD && j < MAXFD
    requires MemAlloc(a, FdKey(d, j), SHARED) == (b, Code.Ok) && MemAlloc(b, DataKey(d, i), SHARED) == (e, Code.Ok)
    ensures HasData(a, d, i, j)
    ensures Rest(a, d, i, j).1 == Failed <==> !MemMap(e, DataKey(d, i), DataKey(d, j), SHARED).1.Ok?
  {
    hide Inv, Flat, MemAlloc, MemMap, MemUnmap, Err1, Err2, Err3;
  }

  lemma NoData(a: State, d: nat, i: nat, j: nat)
    requires Inv(a) && d in a.dirs && i < MAXFD && j < MAXFD
    ensures HasData(a, d, i, j) <==>
              && MemAlloc(a, FdKey(d, j), SHARED).1.Ok?
              && Inv(MemAlloc(a, FdKey(d, j), SHARED).0)
              && MemAlloc(MemAlloc(a, FdKey(d, j), SHARED).0, DataKey(d, i), SHARED).1.Ok?
  {
    MemAllocInv(a, FdKey(d, j), SHARED);
    hide Inv, Flat, MemAlloc, MemMap, MemUnmap;
  }

  /** The calls from the second descriptor on get to a data page of their own exactly if two pages
      are free; having got there they fail exactly if the last mapping needs a table, replacing the
      caller's page freed nothing, and no more than the two pages were free. */
  lemma RestLoses(a: State, d: nat, i: nat, j: nat)
    requires Inv(a) && d in a.dirs && i < j < MAXFD && HasTable(a, d, FDX) && FdKey(d, j) !in Flat(a)
    requires DataKey(d, i) in Flat(a)
    ensures HasData(a, d, i, j) && Rest(a, d, i, j).1 == Failed
            <==> |a.free| == 2 && !HasTable(a, d, FILEX + j) && !Frees(a, DataKey(d, i))
  {
    assert Shape(a);
    FdStep(a, d, j, DataKey(d, i));
    NoData(a, d, i, j);
    hide *;
    var (b, c1) := MemAlloc(a, FdKey(d, j), SHARED);
    if c1.Ok? { RestLosesOn(a, d, i, j, b); }
  }

  lemma RestLosesOn(a: State, d: nat, i: nat, j: nat, b: State)
    requires Inv(a) && Inv(b) && d in a.dirs && d in b.dirs && i < j < MAXFD
    requires MemAlloc(a, FdKey(d, j), SHARED) == (b, Code.Ok) && DataKey(d, i) in Flat(b)
    ensures HasData(a, d, i, j) && Rest(a, d, i, j).1 == Failed
            <==> |b.free| == 1 && !HasTable(b, d, FILEX + j) && !Frees(b, DataKey(d, i))
  {
    var k := DataKey(d, i);
    DataStep(b, d, k);
    NoData(a, d, i, j);
    assert Shape(b);
    hide *;
    var (e, c2) := MemAlloc(b, k, SHARED);
    if c2.Ok? {
      RestIs(a, d, i, j, b, e);
      LastFails(e, d, i, j);
    }
  }

  lemma LastFails(e: State, d: nat, i: nat, j: nat)
    requires Inv(e) && d in e.dirs && i < MAXFD && j < MAXFD && DataKey(d, i) in Flat(e)
    ensures !MemMap(e, DataKey(d, i), DataKey(d, j), SHARED).1.Ok? <==> !HasTable(e, d, FILEX + j) && e.free == []
  {
    hide Inv, Flat, MemMap, HasTable;
    MapFails(e, DataKey(d, i), DataKey(d, j));
  }

  lemma NotFree(s: State, k: Key)
    requires Inv(s) && k in Flat(s)
    ensures Flat(s)[k].pfn !in s.free
  {
    PteEntry(s, k);
    NamedIsReferenced(s, AtPte(k));
  }

  /** Without a page of the caller's there, nothing can be lost. */
  lemma NothingThere(f: map<Key, Word>, k: Key)
    requires k !in f
    ensures f - {k} == f
  {}

  /** pipe() fails after replacing the caller's page exactly if Loses holds before the call. */
  lemma ReplacesIff(s: State, d: nat)
    requires Inv(s) && d in s.dirs
    ensures var i := FdFrom(s, d, 0);
            Loses(s, d) <==> i.Some? && DataKey(d, i.value) in Flat(s) && Pipe(s, d).1 == Failed && Replaces(s, d)
  {
    var r := FdFrom(s, d, 0);
    if r.Some? {
      var k := DataKey(d, r.value);
      PteEntry(s, k);
      FdUnmapped(s, d);
      if k in Flat(s) { ReplacesThere(s, d, r.value); }
    }
    hide Inv, Flat, MemAlloc, MemMap, MemUnmap, HasTable, FdFrom, Rest, HasData, Frees, Pipe, Replaces;
  }

  lemma ReplacesThere(s: State, d: nat, i: nat)
    requires Inv(s) && d in s.dirs && FdFrom(s, d, 0) == Some(i) && DataKey(d, i) in Flat(s) && FdKey(d, i) !in Flat(s)
    ensures Loses(s, d) <==> Pipe(s, d).1 == Failed && Replaces(s, d)
  {
    var k := DataKey(d, i);
    PteEntry(s, k);
    MemAllocInv(s, FdKey(d, i), SHARED);
    AllocFree(s, FdKey(d, i), Flat(s)[k].pfn);
    NotFree(s, k);
    var (a, c) := MemAlloc(s, FdKey(d, i), SHARED);
    if c.Ok? {
      hide Inv, Flat, MemAlloc, MemMap, MemUnmap, HasTable, Frees, Rest, HasData;
      FreesAfter(s, a, k);
      ReplacesRest(s, a, d, i);
      PipeGoesOn(s, a, d, i);
    } else {
      hide Inv, Flat, MemAlloc, MemMap, MemUnmap, HasTable, Frees, Rest, HasData;
      assert !Replaces(s, d);
    }
  }

  lemma PipeGoesOn(s: State, a: State, d: nat, i: nat)
    requires Inv(s) && Inv(a) && d in s.dirs && d in a.dirs && FdFrom(s, d, 0) == Some(i)
    requires MemAlloc(s, FdKey(d, i), SHARED) == (a, Code.Ok)
    ensures var r := FdFrom(a, d, 0);
            Pipe(s, d).1 == Failed && Replaces(s, d) <==> r.Some? && HasData(a, d, i, r.value) && Rest(a, d, i, r.value).1 == Failed
  {
    hide Inv, Flat, MemAlloc, MemMap, MemUnmap, Rest, HasData, Err1;
  }

  lemma ReplacesSome(s: State, a: State, d: nat, i: nat, j: nat)
    requires Shape(s) && Named(s, AtPte(DataKey(d, i))) && Inv(a) && d in a.dirs && i < j < MAXFD
    requires DataKey(d, i) in Flat(a) && FdKey(d, j) !in Flat(a)
    requires forall x: nat :: HasTable(a, d, x) <==> HasTable(s, d, x) || x == FDX
    requires |s.free| >= (if HasTable(s, d, FDX) then 1 else 2) && a.free == s.free[if HasTable(s, d, FDX) then 1 else 2..]
    requires Frees(a, DataKey(d, i)) <==> Frees(s, DataKey(d, i))
    ensures LosesWith(s, d, i, Some(j)) <==> HasData(a, d, i, j) && Rest(a, d, i, j).1 == Failed
  {
    assert Shape(a);
    hide *;
    RestLoses(a, d, i, j);
    RestNumbers(s, a, d, i, j);
  }

  lemma ReplacesRest(s: State, a: State, d: nat, i: nat)
    requires Inv(s) && Inv(a) && d in s.dirs && d in a.dirs && FdFrom(s, d, 0) == Some(i)
    requires FdKey(d, i) !in Flat(s) && DataKey(d, i) in Flat(s) && s.free != [] && s.free[0] < NPAGE
    requires Flat(a) == Flat(s)[FdKey(d, i) := Word(s.free[0], SHARED)]
    requires forall x: nat :: HasTable(a, d, x) <==> HasTable(s, d, x) || x == FDX
    requires |s.free| >= (if HasTable(s, d, FDX) then 1 else 2) && a.free == s.free[if HasTable(s, d, FDX) then 1 else 2..]
    requires Frees(a, DataKey(d, i)) <==> Frees(s, DataKey(d, i))
    ensures var r := FdFrom(a, d, 0);
            Loses(s, d) <==> r.Some? && HasData(a, d, i, r.value) && Rest(a, d, i, r.value).1 == Failed
  {
    assert Shape(s) && DataKey(d, i) in Flat(a);
    SecondFd(s, a, d, i, Word(s.free[0], SHARED));
    PteEntry(s, DataKey(d, i));
    LosesIs(s, d, i);
    hide *;
    var r := FdFrom(a, d, 0);
    if r.Some? {
      SecondUnmapped(s, a, d, i, r.value);
      ReplacesSome(s, a, d, i, r.value);
    } else {
      NoDescriptor(s, d, i);
    }
  }

  lemma NoDescriptor(s: State, d: nat, i: nat)
    requires Shape(s)
    ensures !LosesWith(s, d, i, None)
  {}

  lemma RestNumbers(s: State, a: State, d: nat, i: nat, j: nat)
    requires Shape(s) && Shape(a) && Named(s, AtPte(DataKey(d, i)))
    requires forall x: nat :: HasTable(a, d, x) <==> HasTable(s, d, x) || x == FDX
    requires |s.free| >= (if HasTable(s, d, FDX) then 1 else 2) && a.free == s.free[if HasTable(s, d, FDX) then 1 else 2..]
    requires Frees(a, DataKey(d, i)) <==> Frees(s, DataKey(d, i))
    ensures LosesWith(s, d, i, Some(j))
            <==> |a.free| == 2 && !HasTable(a, d, FILEX + j) && !Frees(a, DataKey(d, i))
  {
    hide Shape, Named, HasTable, Frees;
  }

  lemma LosesIs(s: State, d: nat, i: nat)
    requires Shape(s) && d in s.dirs && FdFrom(s, d, 0) == Some(i) && i + 1 < MAXFD
    ensures Loses(s, d) <==> LosesWith(s, d, i, FdFrom(s, d, i + 1))
  {
    hide FdFrom, LosesWith, Shape;
  }

  lemma SecondUnmapped(s: State, a: State, d: nat, i: nat, j: nat)
    requires Inv(s) && Inv(a) && FdFrom(s, d, 0) == Some(i) && FdFrom(a, d, 0) == Some(j)
    requires s.free != [] && s.free[0] < NPAGE && Flat(a) == Flat(s)[FdKey(d, i) := Word(s.free[0], SHARED)]
    ensures i < j < MAXFD && FdKey(d, j) !in Flat(a)
  {
    FdUnmapped(s, d);
    FdUnmapped(a, d);
    hide Inv, Flat, FdFrom;
    FdGrows(Flat(s), Flat(a), d, i, j, Word(s.free[0], SHARED));
  }

  /** What a failing pipe() does to the caller's memory: nothing, or, exactly if Loses holds before
      the call, it takes away the page at the first descriptor's data address. */
  lemma FailureLoses(s: State, d: nat)
    requires Inv(s) && d in s.dirs
    ensures Loses(s, d) ==> Pipe(s, d).1 == Failed
    ensures Pipe(s, d).1 == Failed ==>
              && Inv(Pipe(s, d).0)
              && Flat(Pipe(s, d).0) == if Loses(s, d) then Flat(s) - {DataKey(d, FdFrom(s, d, 0).value)} else Flat(s)
  {
    ReplacesIff(s, d);
    if Pipe(s, d).1 == Failed {
      FailureUndone(s, d);
      var i := FdFrom(s, d, 0);
      hide Inv, Flat, Pipe, Replaces, FdFrom, Loses;
      if i.Some? && DataKey(d, i.value) !in Flat(s) { NothingThere(Flat(s), DataKey(d, i.value)); }
    }
  }

  // ---------- an instance ----------

  /** A new address space in a machine with n free pages has n - 1 left and no page tables. */
  lemma NewSpace(s: State, boot: seq<Word>, d: nat, a: State, x: nat)
    requires Inv(s) && |boot| == NWORD && s.dirs == {} && SetupVm(s, boot) == Some((d, a))
    ensures Inv(a) && d in a.dirs && |a.free| == |s.free| - 1 && !HasTable(a, d, x)
  {
    SetupVmInv(s, boot);
    TableEntry(a, d, x);
    assert !Named(s, AtPde(d, x));
  }

  /** A page that sys_mem_alloc mapped is never freed by replacing it: its pin stays. */
  lemma AllocatedStays(s: State, k: Key)
    requires Inv(s) && k.d in s.dirs && k.x < UTOPX && k.t < NWORD && MemAlloc(s, k, SHARED).1.Ok?
    ensures var r := MemAlloc(s, k, SHARED).0; Inv(r) && k in Flat(r) && k.d in r.dirs && !Frees(r, k)
  {
    MemAllocInv(s, k, SHARED);
    FreePage(s);
    var r := MemAlloc(s, k, SHARED).0;
    FreesCount(r, k);
    UserCount(r, s.free[0], k);
    assert k in Users(Flat(r), s.free[0]);
    assert |Users(Flat(r), s.free[0])| > 0;
    hide Inv, Flat, MemAlloc, Users, Frees;
  }

  lemma FirstTwo(s: State, d: nat)
    requires Inv(s) && !HasTable(s, d, FDX)
    ensures FdFrom(s, d, 0) == Some(0) && FdFrom(s, d, 1) == Some(1)
  {
    hide Clean, Counted, Distinct, FreeList, Bounded, HasTable;
    assert !Named(s, AtPte(FdKey(d, 0))) && !Named(s, AtPte(FdKey(d, 1)));
  }

  lemma ReadyWith(b: State, d: nat)
    requires Shape(b) && Named(b, AtPte(DataKey(d, 0))) && |b.free| == 4
    requires !HasTable(b, d, FDX) && !HasTable(b, d, FILEX + 1) && !Frees(b, DataKey(d, 0))
    ensures LosesWith(b, d, 0, Some(1))
  {
    hide Shape, Named, HasTable, Frees;
  }

  lemma ReadyLoses(b: State, d: nat)
    requires Inv(b) && d in b.dirs && |b.free| == 4 && DataKey(d, 0) in Flat(b)
    requires !HasTable(b, d, FDX) && !HasTable(b, d, FILEX + 1) && !Frees(b, DataKey(d, 0))
    ensures Loses(b, d)
  {
    assert Shape(b);
    hide *;
    PteEntry(b, DataKey(d, 0));
    FirstTwo(b, d);
    ReadyWith(b, d);
    LosesIs(b, d, 0);
  }

  /** The caller's page is mapped, four pages are left, and pipe() needs five. */
  lemma ReadyToLose(a: State, d: nat)
    requires Inv(a) && d in a.dirs && |a.free| == 6
    requires !HasTable(a, d, FDX) && !HasTable(a, d, FILEX) && !HasTable(a, d, FILEX + 1)
    ensures var (b, c) := MemAlloc(a, DataKey(d, 0), SHARED);
            c.Ok? && Inv(b) && d in b.dirs && DataKey(d, 0) in Flat(b) && Loses(b, d) && |b.free| == 4
  {
    var k := DataKey(d, 0);
    AllocFree(a, k, 0);
    PteEntry(a, k);
    assert Shape(a);
    hide Inv, Flat, MemAlloc, HasTable, Frees, Named, FdFrom, Shape, Loses;
    AllocatedStays(a, k);
    ReadyLoses(MemAlloc(a, k, SHARED).0, d);
  }

  /** It happens: a program with a page of its own at the first data address, on a machine with seven
      pages when it was created, calls pipe(), which fails, and the page is gone. */
  lemma LossInstance(s: State, boot: seq<Word>, d: nat, a: State)
    requires Inv(s) && |boot| == NWORD && s.dirs == {} && |s.free| == 7 && SetupVm(s, boot) == Some((d, a))
    ensures Inv(a) && d in a.dirs
    ensures var (b, c) := MemAlloc(a, DataKey(d, 0), SHARED);
            && c.Ok? && Inv(b) && d in b.dirs && DataKey(d, 0) in Flat(b)
            && Pipe(b, d).1 == Failed && Inv(Pipe(b, d).0) && Flat(Pipe(b, d).0) == Flat(b) - {DataKey(d, 0)}
  {
    NewSpace(s, boot, d, a, FDX);
    NewSpace(s, boot, d, a, FILEX);
    NewSpace(s, boot, d, a, FILEX + 1);
    ReadyToLose(a, d);
    var b := MemAlloc(a, DataKey(d, 0), SHARED).0;
    hide Inv, Flat, MemAlloc, HasTable, Frees, Named, FdFrom, Pipe, SetupVm;
    FailureLoses(b, d);
    NamesFirst(b, d);
  }

  /** With no descriptor table, or none in use, the first descriptor is 0. */
  lemma NamesFirst(s: State, d: nat)
    requires Inv(s) && d in s.dirs && Loses(s, d)
    ensures |s.free| == 4 ==> FdFrom(s, d, 0) == Some(0)
  {
    if |s.free| == 4 { FirstTwo(s, d); }
  }
}
