/** The part of a page directory above UTOP (include/mmu.h, lib/env.c): env_setup_vm copies it from the
    kernel's directory, and nothing changes it afterwards, so the addresses there mean the same in every
    address space, the windows onto an environment's own tables apart. */
module DirSlots {
  import opened Wrappers
  import opened Mmu
  import opened Pmap
  import opened Space
  import opened MemCalls

  /** The directory in page d, as env_setup_vm leaves it above UTOP. */
  predicate LikeBoot(m: seq<Word>, boot: seq<Word>, d: Frame) {
    && |m| == |boot| == NWORD
    && (forall i :: UTOPX <= i < NWORD && i != UVPTX && i != VPTX ==> m[i] == boot[i])
    && m[VPTX] == Word(d, NOFLAGS) && m[UVPTX] == Word(d, VR)
  }

  /** Every address space has the kernel's slots, and its own directory at VPT and UVPT. */
  ghost predicate Alike(s: State, boot: seq<Word>)
    requires Shape(s)
  {
    forall d :: d in s.dirs ==> LikeBoot(s.mem[d], boot, d)
  }

  // ---------- a new address space ----------

  /** What env_setup_vm puts into each slot of the directory. */
  lemma SetupSlots(s: State, boot: seq<Word>)
    requires Inv(s) && |boot| == NWORD && s.free != []
    ensures Shape(s) && SetupVm(s, boot).Some?
    ensures var (p, r) := SetupVm(s, boot).value;
            && Shape(r) && p < NPAGE && p in r.dirs && p !in s.dirs && SlotsKept(s, r)
            && (forall i :: 0 <= i < UTOPX ==> r.mem[p][i] == ZERO)
            && (forall i :: UTOPX <= i < NWORD && i != UVPTX && i != VPTX ==> r.mem[p][i] == boot[i])
            && r.mem[p][VPTX] == Word(p, NOFLAGS) && r.mem[p][UVPTX] == Word(p, VR)
  {
    InvShape(s);
    SetupVmInv(s, boot);
    var (p, r) := SetupVm(s, boot).value;
    InvShape(r);
    hide Inv, Entries, KeepsData;
  }

  lemma SetupLike(s: State, boot: seq<Word>, c: nat, r: State)
    requires Inv(s) && |boot| == NWORD && SetupVm(s, boot) == Some((c, r))
    ensures Inv(r) && Shape(s) && Shape(r) && SlotsKept(s, r) && s.dirs <= r.dirs && r.dirs == s.dirs + {c}
    ensures forall d :: d in r.dirs && d !in s.dirs ==> LikeBoot(r.mem[d], boot, d)
  {
    SetupVmInv(s, boot);
    SetupSlots(s, boot);
    hide Inv, SetupVm, Entries, KeepsData, SlotsKept;
  }

  // ---------- what leaves the slots alone ----------

  lemma WriteSlots(s: State, q: nat, i: nat, w: Word)
    requires Shape(s) && q < NPAGE && i < NWORD && (q !in s.dirs || i < UTOPX)
    ensures SlotsKept(s, Write(s, q, i, w))
  {}

  /** A page some table names is no directory. */
  lemma TableApart(s: State, d: nat, x: nat)
    requires Inv(s) && HasTable(s, d, x)
    ensures s.mem[d][x].pfn < NPAGE && s.mem[d][x].pfn !in s.dirs
  {
    DirsApart(s, AtPde(d, x), s.mem[d][x].pfn);
  }

  lemma FreeApart(s: State)
    requires Inv(s) && s.free != []
    ensures s.free[0] < NPAGE && s.free[0] !in s.dirs
  {
    assert s.free[0] in s.free;
    if s.free[0] in s.dirs { NamedIsReferenced(s, AtDir(s.free[0])); }
  }

  lemma RemoveSlots(s: State, k: Key)
    requires Inv(s)
    ensures Shape(s) && PageRemove.requires(s, k) && Inv(PageRemove(s, k)) && SlotsKept(s, PageRemove(s, k))
  {
    PageRemoveInv(s, k);
    if Named(s, AtPte(k)) { TableApart(s, k.d, k.x); }
    hide Inv, Entries, KeepsData;
  }

  lemma WalkSlots(s: State, d: nat, x: nat)
    requires Inv(s) && d in s.dirs && x < UTOPX
    ensures Shape(s)
    ensures Walk(s, d, x).Some? ==> Inv(Walk(s, d, x).value) && Shape(Walk(s, d, x).value) && SlotsKept(s, Walk(s, d, x).value)
  {
    InvShape(s);
    WalkInv(s, d, x);
    if s.free != [] { FreeApart(s); }
    hide Inv, Entries, KeepsData;
  }

  lemma InsertSlots(s: State, k: Key, p: nat, w: Word)
    requires Inv(s) && k.d in s.dirs && k.x < UTOPX && k.t < NWORD && p < NPAGE
    ensures Shape(s) && Shape(Insert(s, k, p, w).0) && Insert(s, k, p, w).0.dirs == s.dirs && SlotsKept(s, Insert(s, k, p, w).0)
  {
    InvShape(s);
    PageRemoveInv(s, k);
    RemoveSlots(s, k);
    var a := PageRemove(s, k);
    InvShape(a);
    WalkInv(a, k.d, k.x);
    WalkSlots(a, k.d, k.x);
    if Named(s, AtPte(k)) { TableApart(s, k.d, k.x); }
    if Walk(a, k.d, k.x).Some? {
      var b := Walk(a, k.d, k.x).value;
      TableApart(b, k.d, k.x);
      WriteSlots(Claim(b, p), b.mem[k.d][k.x].pfn, k.t, w);
    }
    hide Inv, Entries, KeepsData, PageRemove, Walk;
  }

  lemma TakenSlots(s: State)
    requires Inv(s) && s.free != []
    ensures Shape(s) && Shape(PageAlloc(s).value.1) && SlotsKept(s, PageAlloc(s).value.1)
  {
    InvShape(s);
    FreeApart(s);
    hide Inv;
  }

  /** sys_mem_alloc, sys_mem_map and sys_mem_unmap, in whatever space and whether they succeed or not. */
  lemma MemAllocSlots(s: State, k: Key, fl: Flags)
    requires Inv(s) && Va(k)
    ensures Shape(s) && Shape(MemAlloc(s, k, fl).0) && SlotsKept(s, MemAlloc(s, k, fl).0)
  {
    InvShape(s);
    if k.x < UTOPX && fl.v && !fl.cow && k.d in s.dirs && s.free != [] {
      PinAllocated(s);
      TakenSlots(s);
      var (p, a) := PageAlloc(s).value;
      InsertSlots(Pin(a, p), k, p, Word(p, fl.(v := true)));
    }
    hide Inv, Insert, Entries, KeepsData, Mappable;
  }

  lemma MemMapSlots(s: State, src: Key, dst: Key, fl: Flags)
    requires Inv(s) && Va(src) && Va(dst)
    ensures Shape(s) && Shape(MemMap(s, src, dst, fl).0) && SlotsKept(s, MemMap(s, src, dst, fl).0)
  {
    InvShape(s);
    if src.x < UTOPX && dst.x < UTOPX && fl.v && src.d in s.dirs && dst.d in s.dirs && Named(s, AtPte(src)) {
      LookupMappable(s, src);
      MappableBounded(s, At(s, AtPte(src)).pfn);
      InsertSlots(s, dst, At(s, AtPte(src)).pfn, Word(At(s, AtPte(src)).pfn, fl.(v := true)));
    }
    hide Inv, Insert, Entries, KeepsData, Mappable;
  }

  lemma MemUnmapSlots(s: State, k: Key)
    requires Inv(s) && Va(k)
    ensures Shape(s) && Shape(MemUnmap(s, k).0) && SlotsKept(s, MemUnmap(s, k).0)
  {
    InvShape(s);
    RemoveSlots(s, k);
    InvShape(PageRemove(s, k));
    hide Inv, PageRemove;
  }

  lemma DataApart(s: State, k: Key)
    requires Inv(s) && k in Flat(s)
    ensures Flat(s)[k].pfn < NPAGE && Flat(s)[k].pfn !in s.dirs
  {
    assert AtPte(k) in Entries(s);
    forall d | d in s.dirs ensures d != Flat(s)[k].pfn { assert AtDir(d) in Entries(s); }
    hide Clean, Counted, FreeList, Flat;
  }

  /** A store to a mapped page. */
  lemma StoreSlots(s: State, k: Key, off: nat, w: Word)
    requires Inv(s) && k in Flat(s) && off < NWORD
    ensures Shape(s) && Flat(s)[k].pfn < NPAGE && SlotsKept(s, Write(s, Flat(s)[k].pfn, off, w))
  {
    hide *;
    InvShape(s);
    DataApart(s, k);
    WriteSlots(s, Flat(s)[k].pfn, off, w);
  }

  lemma SlotsSame(s: State, r: State)
    requires Shape(s) && Shape(r) && r.mem == s.mem
    ensures SlotsKept(s, r)
  {}

  lemma SlotsTransitive(s: State, b: State, r: State)
    requires Shape(s) && Shape(b) && Shape(r) && SlotsKept(s, b) && SlotsKept(b, r) && s.dirs == b.dirs && r.dirs <= b.dirs
    ensures SlotsKept(s, r)
  {}

  /** env_free's steps. */
  lemma DropTableSlots(s: State, d: nat, x: nat)
    requires Inv(s) && HasTable(s, d, x) && s.ref[s.mem[d][x].pfn] > 0
    ensures Shape(s) && Shape(DropTable(s, d, x)) && SlotsKept(s, DropTable(s, d, x))
  {
    hide Distinct, Clean, Counted, FreeList, Bounded;
  }
}
