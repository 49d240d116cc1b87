/** The memory system calls of lib/syscall_all.c. An environment argument is the page
    directory of the environment it resolves to; a directory that is not live stands for an
    id that envid2env rejects. */
module MemCalls {
  import opened Wrappers
  import opened Mmu
  import opened Pmap
  import opened Space

  datatype Code = Ok | Unspecified | BadEnv | Inval | NoMem

  /** A key is the split of a 32-bit virtual address, so its table slot is in range. */
  predicate Va(k: Key) { k.x < NWORD && k.t < NWORD }

  function MemAlloc(s: State, k: Key, fl: Flags): (State, Code)
    requires Inv(s) && Va(k)
  {
    if k.x >= UTOPX then (s, Unspecified)
    else if fl.cow || !fl.v then (s, Inval)
    else if k.d !in s.dirs then (s, BadEnv)
    else match PageAlloc(s)
      case None => (s, NoMem)
      case Some((p, a)) =>
        PinAllocated(s);
        var b := Pin(a, p);
        var (r, ok) := PageInsert(b, k, p, fl);
        (r, if ok then Ok else NoMem)
  }

  function MemMap(s: State, src: Key, dst: Key, fl: Flags): (State, Code)
    requires Inv(s) && Va(src) && Va(dst)
  {
    if src.x >= UTOPX || dst.x >= UTOPX then (s, Unspecified)
    else if !fl.v then (s, Inval)
    else if src.d !in s.dirs then (s, BadEnv)
    else if dst.d !in s.dirs then (s, BadEnv)
    else match Lookup(s, src)
      case None => (s, Unspecified)
      case Some(w) =>
        LookupMappable(s, src);
        var (r, ok) := PageInsert(s, dst, w.pfn, fl);
        (r, if ok then Ok else NoMem)
  }

  function MemUnmap(s: State, k: Key): (State, Code)
    requires Inv(s) && Va(k)
  {
    if k.x >= UTOPX then (s, Inval)
    else if k.d !in s.dirs then (s, Inval)
    else
      PageRemoveInv(s, k);
      (PageRemove(s, k), Ok)
  }

  lemma PinAllocated(s: State)
    requires Inv(s) && s.free != []
    ensures var (p, a) := PageAlloc(s).value; var b := Pin(a, p);
            && Inv(b) && Mappable(b, p) && Entries(b) == Entries(s) && p == s.free[0]
            && b.loose == s.loose && b.mem[p] == ZeroPage() && b.dirs == s.dirs && KeepsData(s, b)
            && KeepsData(b, b) && b.pins == s.pins[p := s.pins[p] + 1] && b.free == s.free[1..]
  {
    hide CleanAt, Count, Distinct;
    PageAllocInv(s);
    var (p, a) := PageAlloc(s).value;
    var b := Pin(a, p);
    SameTables(a, b);
    UnreferencedIsUnnamed(a, p);
    assert p in s.free;
  }

  lemma LookupMappable(s: State, k: Key)
    requires Inv(s)
    ensures Named(s, AtPte(k)) ==> Mappable(s, At(s, AtPte(k)).pfn)
  {
    hide CleanAt, Count;
    if Named(s, AtPte(k)) {
      assert AtPte(k) in Entries(s);
      NamedIsReferenced(s, AtPte(k));
    }
  }

  // ---------- the flat map ----------

  /** The page-table entries of a map of references, by address space and virtual page. */
  ghost function Pages(m: map<Loc, Word>): (f: map<Key, Word>)
    ensures forall k :: k in f <==> AtPte(k) in m
    ensures forall k :: k in f ==> f[k] == m[AtPte(k)]
  {
    var keys := set l | l in m && l.AtPte? :: l.k;
    map k | k in keys :: m[AtPte(k)]
  }

  /** The abstract address spaces: which page each (address space, virtual page) maps, with
      which flags. */
  ghost function Flat(s: State): map<Key, Word>
    requires Shape(s)
  {
    Pages(Entries(s))
  }

  lemma PagesPut(m: map<Loc, Word>, l: Loc, w: Word)
    ensures Pages(m[l := w]) == if l.AtPte? then Pages(m)[l.k := w] else Pages(m)
    ensures Pages(m - {l}) == if l.AtPte? then Pages(m) - {l.k} else Pages(m)
  {
    if l.AtPte? {
      assert Pages(m[l := w]) == Pages(m)[l.k := w];
      assert Pages(m - {l}) == Pages(m) - {l.k};
    } else {
      assert Pages(m[l := w]) == Pages(m);
      assert Pages(m - {l}) == Pages(m);
    }
  }

  lemma FlatAfterInsert(s: State, k: Key, p: nat, fl: Flags)
    requires Inv(s) && k.d in s.dirs && k.x < UTOPX && k.t < NWORD && Mappable(s, p)
    requires PageInsert(s, k, p, fl).1
    ensures Inv(PageInsert(s, k, p, fl).0)
    ensures Flat(PageInsert(s, k, p, fl).0) == Flat(s)[k := Word(p, fl.(v := true))]
  {
    hide CleanAt, Count, Distinct, FreeList, Named, Pages, PageInsert, KeepsData;
    PageInsertInv(s, k, p, fl);
    if !HasTable(s, k.d, k.x) {
      PageInsertAllOrNothing(s, k, p, fl);
      assert s.free[0] in s.free;
      var t := Word(s.free[0], V);
      PagesPut(Entries(s), AtPde(k.d, k.x), t);
      PagesPut(Entries(s)[AtPde(k.d, k.x) := t], AtPte(k), Word(p, fl.(v := true)));
    } else {
      PagesPut(Entries(s), AtPte(k), Word(p, fl.(v := true)));
    }
  }

  /** sys_mem_alloc: on success the page at `k` is a cleared page nothing else maps; on any
      failure no mapping changes. Either way every other user page keeps its contents, and a
      page taken from the free list is pinned for good, even when mapping it failed. */
  lemma MemAllocInv(s: State, k: Key, fl: Flags)
    requires Inv(s) && Va(k)
    ensures var (r, c) := MemAlloc(s, k, fl);
            && Inv(r) && r.dirs == s.dirs && r.loose == s.loose && KeepsData(s, r)
            && (c.Ok? ==> s.free != [] && Flat(r) == Flat(s)[k := Word(s.free[0], fl)]
                          && r.mem[s.free[0]] == ZeroPage()
                          && (forall j :: j in Flat(s) ==> Flat(s)[j].pfn != s.free[0])
                          && r.pins == s.pins[s.free[0] := s.pins[s.free[0]] + 1])
            && (!c.Ok? ==> Entries(r) == Entries(s)
                           && (r == s || (s.free != [] && r.pins == s.pins[s.free[0] := s.pins[s.free[0]] + 1])))
  {
    hide CleanAt, Count, Distinct, FreeList, Named, Pages, PageInsert, KeepsData, Mappable;
    if k.x < UTOPX && !fl.cow && fl.v && k.d in s.dirs && s.free != [] {
      PinAllocated(s);
      var (p, a) := PageAlloc(s).value;
      var b := Pin(a, p);
      assert p in s.free;
      PageInsertAllOrNothing(b, k, p, fl);
      FreeUnnamed(s, p);
      KeepsThrough(s, b, b);
      if PageInsert(b, k, p, fl).1 {
        PageInsertInv(b, k, p, fl);
        FlatAfterInsert(b, k, p, fl);
        PinnedNotLoose(b, p);
        KeepsThrough(s, b, PageInsert(b, k, p, fl).0);
        KeepsAt(b, PageInsert(b, k, p, fl).0, p);
        FlatNot(s, p);
        assert fl.(v := true) == fl;
      }
    } else {
      KeepsSelf(s);
    }
  }

  lemma KeepsSelf(s: State)
    requires Shape(s)
    ensures KeepsData(s, s)
  {}

  lemma KeepsAt(s: State, r: State, p: nat)
    requires Shape(s) && Shape(r) && KeepsData(s, r) && Mappable(s, p)
    ensures r.mem[p] == s.mem[p]
  {}

  lemma FlatNot(s: State, p: nat)
    requires Shape(s) && forall l :: l in Entries(s) ==> Entries(s)[l].pfn != p
    ensures forall j :: j in Flat(s) ==> Flat(s)[j].pfn != p
  {}

  lemma FreeUnnamed(s: State, p: nat)
    requires Inv(s) && p in s.free
    ensures forall l :: l in Entries(s) ==> Entries(s)[l].pfn != p
    ensures p !in s.loose
  {
    UnreferencedIsUnnamed(s, p);
  }

  lemma PinnedNotLoose(s: State, p: nat)
    requires Inv(s) && p < NPAGE && s.pins[p] > 0
    ensures p !in s.loose && p !in s.free
  {}

  lemma KeepsThrough(s: State, b: State, r: State)
    requires Shape(s) && Shape(b) && Shape(r) && KeepsData(s, b) && KeepsData(b, r)
    requires Entries(b) == Entries(s) && forall p :: p in b.free ==> p in s.free
    ensures KeepsData(s, r)
  {
    forall q: nat | Mappable(s, q) ensures r.mem[q] == s.mem[q] { assert Mappable(b, q); }
  }

  /** A new address space changes no mapping. */
  lemma SpaceFlat(s: State, c: nat, r: State)
    requires Inv(s) && MakesSpace(s, c, r)
    ensures Inv(r) && Flat(r) == Flat(s) && KeepsData(s, r) && r.pins == s.pins && r.dirs == s.dirs + {c} && c !in s.dirs
  {
    var boot :| |boot| == NWORD && SetupVm(s, boot) == Some((c, r));
    SetupVmInv(s, boot);
    hide Clean, Counted, Distinct, FreeList, Named, KeepsData, SetupVm, Entries, Pages;
    PagesPut(Entries(s), AtDir(c), Word(c, NOFLAGS));
  }

  /** The page the source maps can be mapped once more. */
  lemma SourceMappable(s: State, k: Key)
    requires Inv(s) && Named(s, AtPte(k))
    ensures k in Flat(s) && Flat(s)[k] == At(s, AtPte(k))
    ensures Mappable(s, Flat(s)[k].pfn) && Flat(s)[k].pfn !in s.loose
  {
    hide CleanAt, Count, Distinct, FreeList;
    LookupMappable(s, k);
    assert AtPte(k) in Entries(s);
    NamedIsReferenced(s, AtPte(k));
    LooseUnreferenced(s, At(s, AtPte(k)).pfn);
  }

  /** sys_mem_map sets one entry of the flat map to the page the source maps, or changes
      nothing at all. */
  lemma MemMapInv(s: State, src: Key, dst: Key, fl: Flags)
    requires Inv(s) && Va(src) && Va(dst)
    ensures var (r, c) := MemMap(s, src, dst, fl);
            && Inv(r) && r.dirs == s.dirs && r.pins == s.pins && r.loose == s.loose && KeepsData(s, r)
            && (c.Ok? ==> src in Flat(s) && Flat(r) == Flat(s)[dst := Word(Flat(s)[src].pfn, fl)])
            && (!c.Ok? ==> r == s)
  {
    hide Inv, Shape, Entries, Flat, Named, PageInsert, KeepsData;
    InvShape(s);
    KeepsSelf(s);
    if src.x < UTOPX && dst.x < UTOPX && fl.v && src.d in s.dirs && dst.d in s.dirs && Named(s, AtPte(src)) {
      SourceMappable(s, src);
      LookupMappable(s, src);
      var p := At(s, AtPte(src)).pfn;
      PageInsertAllOrNothing(s, dst, p, fl);
      if PageInsert(s, dst, p, fl).1 {
        PageInsertInv(s, dst, p, fl);
        FlatAfterInsert(s, dst, p, fl);
        assert fl.(v := true) == fl;
      }
    }
  }

  /** sys_mem_unmap deletes one entry of the flat map. */
  lemma MemUnmapInv(s: State, k: Key)
    requires Inv(s) && Va(k)
    ensures var (r, c) := MemUnmap(s, k);
            && Inv(r) && r.dirs == s.dirs && r.pins == s.pins && r.loose == s.loose && KeepsData(s, r)
            && (c.Ok? <==> k.x < UTOPX && k.d in s.dirs)
            && (c.Ok? ==> Flat(r) == Flat(s) - {k})
            && (!c.Ok? ==> c.Inval? && r == s)
  {
    hide CleanAt, Count, Distinct, FreeList, Named;
    if k.x < UTOPX && k.d in s.dirs {
      PageRemoveInv(s, k);
      PagesPut(Entries(s), AtPte(k), ZERO);
    }
  }

  // ---------- which calls succeed, and with which codes the others fail ----------

  /** Pages for one that is mapped at `k` and, when there is none yet, for the table of the slot. */
  predicate Enough(s: State, k: Key)
    requires Shape(s)
  {
    |s.free| >= if HasTable(s, k.d, k.x) then 1 else 2
  }

  lemma FlatNamed(s: State, k: Key)
    requires Shape(s)
    ensures k in Flat(s) <==> Named(s, AtPte(k))
  {}

  /** sys_mem_alloc, for all flags: the address is a user's, PTE_V is asked for and PTE_COW is not, the
      environment is found, and there are pages. */
  lemma MemAllocCode(s: State, k: Key, fl: Flags)
    requires Inv(s) && Va(k)
    ensures Shape(s)
    ensures var c := MemAlloc(s, k, fl).1;
            && (c.Ok? <==> k.x < UTOPX && fl.v && !fl.cow && k.d in s.dirs && Enough(s, k))
            && (c.Unspecified? <==> k.x >= UTOPX)
            && (c.Inval? <==> k.x < UTOPX && (fl.cow || !fl.v))
            && (c.BadEnv? <==> k.x < UTOPX && fl.v && !fl.cow && k.d !in s.dirs)
            && (c.NoMem? <==> k.x < UTOPX && fl.v && !fl.cow && k.d in s.dirs && !Enough(s, k))
  {
    InvShape(s);
    if k.x < UTOPX && fl.v && !fl.cow && k.d in s.dirs && s.free != [] {
      PinAllocated(s);
      var (p, a) := PageAlloc(s).value;
      var b := Pin(a, p);
      InvShape(b);
      HasTableIff(s, b, k.d, k.x);
      hide Inv, PageInsert, Entries, Mappable, KeepsData;
      PageInsertAllOrNothing(b, k, p, fl);
    }
    hide Inv, PageInsert, Entries, Mappable, KeepsData;
  }

  /** sys_mem_map, for all flags, copy-on-write among them: both addresses are a user's, PTE_V is asked
      for, both environments are found, the source maps a page, and there is a page for the table if the
      destination needs one. */
  lemma MemMapCode(s: State, src: Key, dst: Key, fl: Flags)
    requires Inv(s) && Va(src) && Va(dst)
    ensures Shape(s)
    ensures var c := MemMap(s, src, dst, fl).1; var user := src.x < UTOPX && dst.x < UTOPX;
            var found := src.d in s.dirs && dst.d in s.dirs;
            && (c.Ok? <==> user && fl.v && found && src in Flat(s) && (HasTable(s, dst.d, dst.x) || s.free != []))
            && (c.Unspecified? <==> !user || (fl.v && found && src !in Flat(s)))
            && (c.Inval? <==> user && !fl.v)
            && (c.BadEnv? <==> user && fl.v && !found)
            && (c.NoMem? <==> user && fl.v && found && src in Flat(s) && !HasTable(s, dst.d, dst.x) && s.free == [])
  {
    hide Inv, PageInsert, Entries, Mappable, KeepsData, Flat, Named, HasTable, At;
    InvShape(s);
    FlatNamed(s, src);
    LookupIs(s, src);
    if src.x < UTOPX && dst.x < UTOPX && fl.v && src.d in s.dirs && dst.d in s.dirs && src in Flat(s) {
      SourceMappable(s, src);
      MappableBounded(s, Flat(s)[src].pfn);
      PageInsertAllOrNothing(s, dst, At(s, AtPte(src)).pfn, fl);
    }
  }

  lemma LookupIs(s: State, k: Key)
    requires Shape(s)
    ensures Named(s, AtPte(k)) <==> Lookup(s, k).Some?
    ensures Named(s, AtPte(k)) ==> Lookup(s, k) == Some(At(s, AtPte(k)))
  {}

  lemma MappableBounded(s: State, p: nat)
    requires Shape(s) && Mappable(s, p)
    ensures p < NPAGE
  {}
}
