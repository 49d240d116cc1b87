/** The copy-on-write machine is what the kernel's page tables implement: each of its steps is
    one system call or memory access on the two-level tables. */
module CowKernel {
  import opened Wrappers
  import opened Mmu
  import opened Pmap
  import opened Space
  import opened MemCalls
  import opened Cow

  // ---------- reading one's own page table ----------

  /** A load as do_refill translates it: directory entry, table entry, word. */
  function Translate(s: State, d: nat, x: nat, t: nat, off: nat): Option<Word>
    requires Shape(s) && d < NPAGE && x < NWORD && t < NWORD && off < NWORD
  {
    var pde := s.mem[d][x];
    if !pde.fl.v || pde.pfn >= NPAGE then None
    else
      var pte := s.mem[pde.pfn][t];
      if !pte.fl.v || pte.pfn >= NPAGE then None else Some(s.mem[pte.pfn][off])
  }

  /** Through the UVPT slot, which points the directory at itself, a program reads its page
      tables as memory: word t of page x there is the entry of virtual page (x, t), and page
      UVPT of that window is the directory. */
  lemma SelfMap(s: State, d: nat, x: nat, t: nat)
    requires Inv(s) && d in s.dirs && x < UTOPX && t < NWORD
    ensures HasTable(s, d, x) ==> Translate(s, d, UVPTX, x, t) == Some(s.mem[s.mem[d][x].pfn][t])
    ensures Translate(s, d, UVPTX, UVPTX, x) == Some(s.mem[d][x])
  {
    assert CleanAt(s, AtDir(d));
  }

  /** fork's test of a page, (*vpd)[..] != 0 and (*vpt)[..] != 0, holds exactly of mapped pages. */
  lemma ScanTest(s: State, k: Key)
    requires Inv(s) && k.d in s.dirs && k.x < UTOPX && k.t < NWORD
    ensures k in Flat(s) <==>
              var pde := Translate(s, k.d, UVPTX, UVPTX, k.x);
              pde.Some? && pde.value != ZERO &&
              var pte := Translate(s, k.d, UVPTX, k.x, k.t);
              pte.Some? && pte.value != ZERO
  {
    SelfMap(s, k.d, k.x, k.t);
    assert CleanAt(s, AtPde(k.d, k.x)) && CleanAt(s, AtPte(k));
  }

  /** A load of a mapped page reads the page the flat map gives. */
  lemma LoadFlat(s: State, k: Key, off: nat)
    requires Inv(s) && k.d in s.dirs && k.x < UTOPX && k.t < NWORD && off < NWORD
    ensures Translate(s, k.d, k.x, k.t, off)
            == if k in Flat(s) && Flat(s)[k].pfn < NPAGE then Some(s.mem[Flat(s)[k].pfn][off]) else None
  {
    assert CleanAt(s, AtPde(k.d, k.x)) && CleanAt(s, AtPte(k));
    assert Named(s, AtPte(k)) ==> AtPte(k) in Entries(s);
  }

  // ---------- refinement ----------

  ghost predicate Rel(s: State, v: Vm)
    requires Shape(s)
  {
    && v.pt == Flat(s)
    && forall k :: k in v.pt ==>
         v.pt[k].pfn < NPAGE && v.pt[k].pfn in v.data && v.data[v.pt[k].pfn] == s.mem[v.pt[k].pfn]
  }

  lemma FlatBounded(s: State, k: Key)
    requires Inv(s) && k in Flat(s)
    ensures Flat(s)[k].pfn < NPAGE && Mappable(s, Flat(s)[k].pfn) && Flat(s)[k] == At(s, AtPte(k)) && Named(s, AtPte(k))
  {
    hide CleanAt, Count;
    LookupMappable(s, k);
  }

  /** Pages keep their contents as long as something maps them. */
  lemma RelKeeps(s: State, v: Vm, r: State, n: Vm)
    requires Inv(s) && Rel(s, v) && Shape(r) && KeepsData(s, r) && n.pt == Flat(r)
    requires forall k :: k in n.pt ==>
               (exists j :: j in v.pt && v.pt[j].pfn == n.pt[k].pfn && n.pt[k].pfn in n.data
                            && n.data[n.pt[k].pfn] == v.data[n.pt[k].pfn])
               || (n.pt[k].pfn < NPAGE && n.pt[k].pfn in n.data && n.data[n.pt[k].pfn] == r.mem[n.pt[k].pfn])
    ensures Rel(r, n)
  {
    hide CleanAt, Count, Distinct, FreeList, Counted, Clean, Flat, Mappable, Bounded;
    forall k | k in n.pt
      ensures n.pt[k].pfn < NPAGE && n.pt[k].pfn in n.data && n.data[n.pt[k].pfn] == r.mem[n.pt[k].pfn]
    {
      if j :| j in v.pt && v.pt[j].pfn == n.pt[k].pfn && n.pt[k].pfn in n.data
              && n.data[n.pt[k].pfn] == v.data[n.pt[k].pfn] {
        FlatBounded(s, j);
      }
    }
  }

  lemma AllocRealised(s: State, v: Vm, k: Key, fl: Flags)
    requires Inv(s) && Rel(s, v) && Va(k) && MemAlloc(s, k, fl).1.Ok?
    ensures s.free != [] && Fresh(v, s.free[0]) && Inv(MemAlloc(s, k, fl).0)
    ensures Rel(MemAlloc(s, k, fl).0, Zeroed(v, k, fl, s.free[0]))
  {
    hide CleanAt, Count, Distinct, FreeList, Counted, Clean, MemAlloc, Flat, KeepsData;
    MemAllocInv(s, k, fl);
    assert s.free[0] in s.free;
    RelKeeps(s, v, MemAlloc(s, k, fl).0, Zeroed(v, k, fl, s.free[0]));
  }

  lemma MapRealised(s: State, v: Vm, src: Key, dst: Key, fl: Flags, n: Vm)
    requires Inv(s) && Rel(s, v) && Va(src) && Va(dst) && MemMap(s, src, dst, fl).1.Ok?
    requires n.data == v.data && (src in v.pt ==> n.pt == v.pt[dst := Word(v.pt[src].pfn, fl)])
    ensures src in v.pt && Inv(MemMap(s, src, dst, fl).0) && Rel(MemMap(s, src, dst, fl).0, n)
  {
    hide CleanAt, Count, Distinct, FreeList, Counted, Clean, MemMap, Flat, KeepsData;
    MemMapInv(s, src, dst, fl);
    RelKeeps(s, v, MemMap(s, src, dst, fl).0, n);
  }

  lemma UnmapRealised(s: State, v: Vm, k: Key, n: Vm)
    requires Inv(s) && Rel(s, v) && Va(k) && MemUnmap(s, k).1.Ok? && n.data == v.data && n.pt == v.pt - {k}
    ensures Inv(MemUnmap(s, k).0) && Rel(MemUnmap(s, k).0, n)
  {
    hide CleanAt, Count, Distinct, FreeList, Counted, Clean, MemUnmap, Flat, KeepsData;
    MemUnmapInv(s, k);
    RelKeeps(s, v, MemUnmap(s, k).0, n);
  }

  /** A store to a user page changes that page and no table. */
  lemma StoreInv(s: State, k: Key, off: nat, w: Word)
    requires Inv(s) && k in Flat(s) && off < NWORD
    ensures Flat(s)[k].pfn < NPAGE
    ensures var r := Write(s, Flat(s)[k].pfn, off, w); Inv(r) && Flat(r) == Flat(s)
  {
    hide CleanAt, Count, Distinct, FreeList;
    FlatBounded(s, k);
    WriteData(s, Flat(s)[k].pfn, off, w);
    FreeListSame(s, Write(s, Flat(s)[k].pfn, off, w));
  }

  lemma StoreRealised(s: State, v: Vm, k: Key, off: nat, w: Word, n: Vm)
    requires Inv(s) && Rel(s, v) && k in v.pt && off < NWORD
    requires n.pt == v.pt && n.data == v.data[v.pt[k].pfn := s.mem[v.pt[k].pfn][off := w]]
    ensures Inv(Write(s, v.pt[k].pfn, off, w)) && Rel(Write(s, v.pt[k].pfn, off, w), n)
  {
    StoreInv(s, k, off, w);
    hide Inv, Flat;
  }

  lemma MappedVa(s: State, v: Vm, k: Key)
    requires Inv(s) && Rel(s, v) && k in v.pt
    ensures Va(k) && v.pt[k].pfn < NPAGE && v.pt[k].pfn in v.data && v.data[v.pt[k].pfn] == s.mem[v.pt[k].pfn]
  {
    FlatBounded(s, k);
  }

  lemma FaultMapped(v: Vm, e: nat)
    requires VmInv(v) && e in v.fault && v.fault[e].Copying?
    ensures v.fault[e].k in v.pt && Temp(e) in v.pt
  {
    assert FaultAt(v, e);
  }

  /** What the kernel or the hardware is asked to do. */
  datatype Request =
    | DoStore(p: nat, off: nat, w: Word)
    | DoAlloc(k: Key, fl: Flags)
    | DoMap(src: Key, dst: Key, fl: Flags)
    | DoUnmap(k: Key)

  predicate Sound(q: Request) {
    match q
    case DoStore(p, off, _) => p < NPAGE && off < NWORD
    case DoAlloc(k, _) => Va(k)
    case DoMap(src, dst, _) => Va(src) && Va(dst)
    case DoUnmap(k) => Va(k)
  }

  /** The request carried out; None for the failures on which fork and pgfault give up. */
  function Serve(s: State, q: Request): Option<State>
    requires Inv(s) && Sound(q)
  {
    match q
    case DoStore(p, off, w) => Some(Write(s, p, off, w))
    case DoAlloc(k, fl) => (var (r, c) := MemAlloc(s, k, fl); if c.Ok? then Some(r) else None)
    case DoMap(src, dst, fl) => (var (r, c) := MemMap(s, src, dst, fl); if c.Ok? then Some(r) else None)
    case DoUnmap(k) => (var (r, c) := MemUnmap(s, k); if c.Ok? then Some(r) else None)
  }

  /** The request behind each step. */
  function RequestOf(v: Vm, a: Act): Request
    requires VmInv(v) && Can(v, a) && Touches(a)
  {
    match a
    case Store(k, off, w) => DoStore(v.pt[k].pfn, off, w)
    case Alloc(k, fl, _) => DoAlloc(k, fl)
    case Unmap(k) => DoUnmap(k)
    case Pageout(k, _) => DoAlloc(k, VR)
    case Trap(k, _) => DoAlloc(Temp(k.d), v.pt[k].fl.(cow := false))
    case Copy(e) => DoStore(v.pt[Temp(e)].pfn, v.fault[e].done, v.data[v.pt[v.fault[e].k].pfn][v.fault[e].done])
    case Remap(e) => DoMap(Temp(e), v.fault[e].k, v.pt[Temp(e)].fl)
    case Return(e) => DoUnmap(Temp(e))
    case Dup(k) => DoMap(k, Twin(v.fork[k.d].child, k), ChildFlags(v.pt[k].fl))
    case Mark(k) => DoMap(k, k, DupFlags(v.pt[k].fl))
    case Stack(e, _) => DoAlloc(Key(v.fork[e].child, XSTKX, XSTKT), VR)
  }

  lemma RequestSound(s: State, v: Vm, a: Act)
    requires Inv(s) && VmInv(v) && Rel(s, v) && Can(v, a) && Touches(a)
    ensures Sound(RequestOf(v, a))
  {
    hide Inv, Rel, Uniform, Guarded, HiddenOk, ForkOk, FaultOk;
    match a
    case Store(k, _, _) => MappedVa(s, v, k);
    case Copy(e) => MappedVa(s, v, Temp(e));
    case Remap(e) => FaultMapped(v, e); MappedVa(s, v, v.fault[e].k);
    case Dup(k) => MappedVa(s, v, k);
    case Mark(k) => MappedVa(s, v, k);
    case _ =>
  }

  function ChildFlags(fl: Flags): Flags {
    if fl.r || fl.cow then DupFlags(fl) else fl
  }

  /** The steps that touch memory or the page tables, on pages whose number is the split of an
      address. (Spawn, Release and Exit are calls on whole environments.) */
  predicate Touches(a: Act) {
    match a
    case Alloc(k, _, _) => Va(k)
    case Unmap(k) => Va(k)
    case Pageout(k, _) => Va(k)
    case Spawn(_, _) => false
    case Release(_) => false
    case Exit(_) => false
    case _ => true
  }

  /** The page a step takes is the one the kernel would: the head of the free list. */
  predicate TakesHead(s: State, a: Act) {
    match a
    case Alloc(_, _, p) => s.free != [] && p == s.free[0]
    case Pageout(_, p) => s.free != [] && p == s.free[0]
    case Trap(_, p) => s.free != [] && p == s.free[0]
    case Stack(_, p) => s.free != [] && p == s.free[0]
    case _ => true
  }

  /** The request was carried out, and the outcome is what the machine says. */
  ghost predicate Gives(o: Option<State>, n: Vm) {
    o.Some? && Inv(o.value) && Rel(o.value, n)
  }

  lemma RelSame(s: State, v: Vm, n: Vm)
    requires Shape(s) && Rel(s, v) && n.pt == v.pt && n.data == v.data
    ensures Rel(s, n)
  {}

  lemma StoresRealised(s: State, v: Vm, a: Act)
    requires Inv(s) && VmInv(v) && Rel(s, v) && Can(v, a) && (a.Copy? || a.Store?) && Sound(RequestOf(v, a))
    ensures Gives(Serve(s, RequestOf(v, a)), Next(v, a))
  {
    hide CleanAt, Count, Distinct, FreeList, Counted, Clean, Flat, KeepsData, Uniform, Guarded, HiddenOk, ForkOk, FaultOk, Rel;
    match a
    case Store(k, off, w) =>
      MappedVa(s, v, k);
      StoreRealised(s, v, k, off, w, Next(v, a));
    case Copy(e) =>
      MappedVa(s, v, v.fault[e].k);
      MappedVa(s, v, Temp(e));
      var i := v.fault[e].done;
      StoreRealised(s, v, Temp(e), i, v.data[v.pt[v.fault[e].k].pfn][i], Next(v, a));
  }

  lemma AllocsRealised(s: State, v: Vm, a: Act)
    requires Inv(s) && VmInv(v) && Rel(s, v) && Can(v, a) && (a.Alloc? || a.Pageout? || a.Trap? || a.Stack?)
    requires Touches(a) && TakesHead(s, a) && Sound(RequestOf(v, a)) && Serve(s, RequestOf(v, a)).Some?
    ensures Gives(Serve(s, RequestOf(v, a)), Next(v, a))
  {
    hide CleanAt, Count, Distinct, FreeList, Counted, Clean, Flat, MemAlloc, Uniform, Guarded, HiddenOk, ForkOk, FaultOk, Rel;
    var q := RequestOf(v, a);
    AllocRealised(s, v, q.k, q.fl);
    RelSame(MemAlloc(s, q.k, q.fl).0, Zeroed(v, q.k, q.fl, a.p), Next(v, a));
  }

  lemma MapsRealised(s: State, v: Vm, a: Act, q: Request, n: Vm)
    requires Inv(s) && VmInv(v) && Rel(s, v) && Can(v, a) && Touches(a) && (a.Remap? || a.Dup? || a.Mark?)
    requires Sound(q) && Serve(s, q).Some?
    requires q == RequestOf(v, a)
    requires n == Next(v, a)
    ensures Gives(Serve(s, q), n)
  {
    hide Inv, Flat, MemMap, Uniform, Guarded, HiddenOk, ForkOk, FaultOk, Rel;
    MapRealised(s, v, q.src, q.dst, q.fl, n);
  }

  /** Refinement: whenever the kernel carries a step's request out, it takes the page tables
      and memory to exactly what the step of the copy-on-write machine says. */
  lemma Realises(s: State, v: Vm, a: Act)
    requires Inv(s) && VmInv(v) && Rel(s, v) && Can(v, a) && Touches(a) && TakesHead(s, a)
    ensures Sound(RequestOf(v, a))
    ensures Serve(s, RequestOf(v, a)).Some? ==> Gives(Serve(s, RequestOf(v, a)), Next(v, a))
  {
    hide Inv, Flat, MemAlloc, MemMap, MemUnmap, Uniform, Guarded, HiddenOk, ForkOk, FaultOk, Rel;
    RequestSound(s, v, a);
    if Serve(s, RequestOf(v, a)).Some? {
      match a
      case Store(_, _, _) => StoresRealised(s, v, a);
      case Copy(_) => StoresRealised(s, v, a);
      case Unmap(k) => UnmapRealised(s, v, k, Next(v, a));
      case Return(e) => UnmapRealised(s, v, Temp(e), Next(v, a));
      case Remap(_) => MapsRealised(s, v, a, RequestOf(v, a), Next(v, a));
      case Dup(_) => MapsRealised(s, v, a, RequestOf(v, a), Next(v, a));
      case Mark(_) => MapsRealised(s, v, a, RequestOf(v, a), Next(v, a));
      case _ => AllocsRealised(s, v, a);
    }
  }

  // ---------- which requests are served ----------

  /** What a step needs of the kernel: pages, where it takes one or may need a table, and an environment
      that is found. The accesses, and the calls of pgfault and duppage that replace a mapping, need
      nothing. */
  predicate Granted(s: State, v: Vm, a: Act)
    requires Shape(s) && VmInv(v) && Can(v, a) && Touches(a)
  {
    match a
    case Alloc(k, _, _) => k.x < UTOPX && k.d in s.dirs && Enough(s, k)
    case Pageout(k, _) => k.x < UTOPX && k.d in s.dirs && Enough(s, k)
    case Unmap(k) => k.x < UTOPX && k.d in s.dirs
    case Trap(k, _) => Enough(s, Temp(k.d))
    case Dup(k) => v.fork[k.d].child in s.dirs && (HasTable(s, v.fork[k.d].child, k.x) || s.free != [])
    case Stack(e, _) => v.fork[e].child in s.dirs && Enough(s, Key(v.fork[e].child, XSTKX, XSTKT))
    case _ => true
  }

  lemma MappedUser(s: State, v: Vm, k: Key)
    requires Inv(s) && Rel(s, v) && k in v.pt
    ensures k in Flat(s) && k.x < UTOPX && k.t < NWORD && k.d in s.dirs && HasTable(s, k.d, k.x)
  {
    assert Named(s, AtPte(k));
  }

  lemma ValidFlags(v: Vm, k: Key)
    requires VmInv(v) && k in v.pt
    ensures v.pt[k].fl.v && ChildFlags(v.pt[k].fl).v && DupFlags(v.pt[k].fl).v
  {
    assert EntryOk(v, k);
  }

  lemma MapsGranted(s: State, v: Vm, a: Act)
    requires Inv(s) && Shape(s) && VmInv(v) && Rel(s, v) && Can(v, a) && (a.Remap? || a.Dup? || a.Mark?)
    requires Touches(a) && Sound(RequestOf(v, a))
    ensures Serve(s, RequestOf(v, a)).Some? <==> Granted(s, v, a)
  {
    hide Inv, Flat, MemMap, Uniform, Guarded, HiddenOk, ForkOk, FaultOk, Rel, HasTable, Sane, Shape;
    var q := RequestOf(v, a);
    MemMapCode(s, q.src, q.dst, q.fl);
    match a
    case Remap(e) =>
      FaultMapped(v, e);
      MappedUser(s, v, Temp(e));
      MappedUser(s, v, v.fault[e].k);
      ValidFlags(v, Temp(e));
    case Dup(k) =>
      MappedUser(s, v, k);
      ValidFlags(v, k);
    case Mark(k) =>
      MappedUser(s, v, k);
      ValidFlags(v, k);
  }

  lemma AllocsGranted(s: State, v: Vm, a: Act)
    requires Inv(s) && Shape(s) && VmInv(v) && Rel(s, v) && Can(v, a) && (a.Alloc? || a.Pageout? || a.Trap? || a.Stack?)
    requires Touches(a) && Sound(RequestOf(v, a))
    ensures Serve(s, RequestOf(v, a)).Some? <==> Granted(s, v, a)
  {
    hide Inv, Flat, MemAlloc, Uniform, Guarded, HiddenOk, ForkOk, FaultOk, Rel, HasTable, Enough, Sane, Shape;
    var q := RequestOf(v, a);
    MemAllocCode(s, q.k, q.fl);
    if a.Trap? {
      MappedUser(s, v, a.k);
      ValidFlags(v, a.k);
    }
  }

  /** Which requests are served: exactly those whose pages and environments are there. The permissions
      that fork and pgfault ask for are never refused. */
  lemma ServedIff(s: State, v: Vm, a: Act)
    requires Inv(s) && VmInv(v) && Rel(s, v) && Can(v, a) && Touches(a)
    ensures Shape(s) && Sound(RequestOf(v, a))
    ensures Serve(s, RequestOf(v, a)).Some? <==> Granted(s, v, a)
  {
    hide Inv, Flat, MemAlloc, MemMap, MemUnmap, Uniform, Guarded, HiddenOk, ForkOk, FaultOk, Rel, Shape, Sane;
    InvShape(s);
    RequestSound(s, v, a);
    match a
    case Store(_, _, _) =>
    case Copy(_) =>
    case Unmap(k) => MemUnmapInv(s, k);
    case Return(e) =>
      ReturnMapped(v, e);
      MappedUser(s, v, Temp(e));
      MemUnmapInv(s, Temp(e));
    case Remap(_) => MapsGranted(s, v, a);
    case Dup(_) => MapsGranted(s, v, a);
    case Mark(_) => MapsGranted(s, v, a);
    case _ => AllocsGranted(s, v, a);
  }

  lemma ReturnMapped(v: Vm, e: nat)
    requires VmInv(v) && e in v.fault
    ensures Temp(e) in v.pt
  {
    assert FaultAt(v, e);
  }

  lemma RelStays(s: State, v: Vm, r: State, n: Vm)
    requires Inv(s) && Rel(s, v) && Shape(r) && KeepsData(s, r) && Flat(r) == Flat(s) && n.pt == v.pt && n.data == v.data
    ensures Rel(r, n)
  {
    hide CleanAt, Count, Distinct, FreeList, Counted, Clean, Flat, Mappable, Bounded;
    forall k | k in n.pt ensures r.mem[n.pt[k].pfn] == s.mem[n.pt[k].pfn] { FlatBounded(s, k); }
  }

  lemma DirKeys(s: State, k: Key)
    requires Shape(s) && k in Flat(s)
    ensures k.d in s.dirs
  {
    assert Named(s, AtPte(k));
  }

  /** A new address space maps nothing and disturbs nothing. */
  lemma SpawnRealised(s: State, v: Vm, boot: seq<Word>, e: nat, c: nat, r: State)
    requires Inv(s) && Rel(s, v) && |boot| == NWORD && SetupVm(s, boot) == Some((c, r)) && Idle(v, e) && Idle(v, c) && c != e
    ensures Can(v, Spawn(e, c)) && Inv(r) && Rel(r, Next(v, Spawn(e, c)))
  {
    hide CleanAt, Count, Distinct, FreeList, Counted, Clean, SetupVm, KeepsData, Pages, Named;
    SetupVmInv(s, boot);
    forall k | k in v.pt ensures k.d != c { DirKeys(s, k); }
    PagesPut(Entries(s), AtDir(c), Word(c, NOFLAGS));
    RelStays(s, v, r, Next(v, Spawn(e, c)));
  }

  lemma PagesWithout(m: map<Loc, Word>, d: nat)
    ensures Pages(Without(m, d)) == map k | k in Pages(m) && k.d != d :: Pages(m)[k]
  {}

  /** env_free takes away that environment's pages and nobody else's. */
  lemma ExitRealised(s: State, v: Vm, d: nat, r: State)
    requires Inv(s) && Rel(s, v) && Freed(s, d, r) && Can(v, Exit(d))
    ensures Rel(r, Next(v, Exit(d)))
  {
    hide CleanAt, Count, Distinct, FreeList, Counted, Clean, KeepsData, Named, Pages, Without, Entries, Can;
    var n := Next(v, Exit(d));
    PagesWithout(Entries(s), d);
    assert Flat(r) == n.pt && n.data == v.data;
    forall k | k in n.pt ensures r.mem[n.pt[k].pfn] == s.mem[n.pt[k].pfn] {
      assert AtPte(k) in Entries(r);
    }
  }
}
