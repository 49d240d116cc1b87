/** How pipe() (user/pipe.c) builds a pipe with system calls, and undoes what it built when one
    of them fails. It sets up the reference counts that the closed test relies on. */
module PipeMake {
  import opened Wrappers
  import opened Mmu
  import opened Pmap
  import opened MemCalls
  import CowKernel
  import PipeClosed

  const MAXFD: nat := 32
  const FDX: nat := 383          // PDX(FDTABLE)
  const FILEX: nat := 384        // PDX(FILEBASE)

  const SHARED := VR.(lib := true)

  function FdKey(d: nat, i: nat): Key { Key(d, FDX, i) }

  function DataKey(d: nat, i: nat): Key { Key(d, FILEX + i, 0) }

  /** fd_alloc's scan from descriptor i on: the first whose fd page is not mapped. The last
      descriptor is never tried. */
  function FdFrom(s: State, d: nat, i: nat): (r: Option<nat>)
    requires Shape(s) && i < MAXFD
    ensures r.Some? ==> i <= r.value < MAXFD - 1 && !Named(s, AtPte(FdKey(d, r.value)))
    ensures r.Some? ==> forall k :: i <= k < r.value ==> Named(s, AtPte(FdKey(d, k)))
    ensures r == None ==> forall k :: i <= k < MAXFD - 1 ==> Named(s, AtPte(FdKey(d, k)))
    decreases MAXFD - i
  {
    if i >= MAXFD - 1 then None
    else if !Named(s, AtPte(FdKey(d, i))) then Some(i)
    else FdFrom(s, d, i + 1)
  }

  /** fd_alloc reads the entry's valid bits through vpd and vpt; that is the same question. */
  lemma FdTest(s: State, d: nat, i: nat)
    requires Inv(s) && d in s.dirs && i < MAXFD
    ensures Named(s, AtPte(FdKey(d, i)))
            <==> var pde := CowKernel.Translate(s, d, UVPTX, UVPTX, FDX);
                 pde.Some? && pde.value.fl.v &&
                 var pte := CowKernel.Translate(s, d, UVPTX, FDX, i);
                 pte.Some? && pte.value.fl.v
  {
    CowKernel.SelfMap(s, d, FDX, i);
    assert CleanAt(s, AtPde(d, FDX)) && CleanAt(s, AtPte(FdKey(d, i)));
  }

  datatype Result = Made(i: nat, j: nat) | Failed

  function Unmap(s: State, k: Key): (r: State)
    requires Inv(s) && Va(k)
    ensures Inv(r)
  {
    MemUnmapInv(s, k);
    MemUnmap(s, k).0
  }

  /** The three failure exits, each falling through to the next. */
  function Err1(s: State, d: nat, i: nat): (r: State)
    requires Inv(s) && i < MAXFD
    ensures Inv(r)
  {
    Unmap(s, FdKey(d, i))
  }

  function Err2(s: State, d: nat, i: nat, j: nat): (r: State)
    requires Inv(s) && i < MAXFD && j < MAXFD
    ensures Inv(r)
  {
    Err1(Unmap(s, FdKey(d, j)), d, i)
  }

  function Err3(s: State, d: nat, i: nat, j: nat): (r: State)
    requires Inv(s) && i < MAXFD && j < MAXFD
    ensures Inv(r)
  {
    Err2(Unmap(s, DataKey(d, i)), d, i, j)
  }

  /** pipe(), called by the environment whose directory is d. */
  function Pipe(s: State, d: nat): (State, Result)
    requires Inv(s) && d in s.dirs
  {
    match FdFrom(s, d, 0)
    case None => (s, Failed)
    case Some(i) =>
      MemAllocInv(s, FdKey(d, i), SHARED);
      var (a, c) := MemAlloc(s, FdKey(d, i), SHARED);
      if !c.Ok? then (a, Failed)
      else match FdFrom(a, d, 0)
        case None => (Err1(a, d, i), Failed)
        case Some(j) => Rest(a, d, i, j)
  }

  /** The second descriptor and the data page. */
  function Rest(a: State, d: nat, i: nat, j: nat): (State, Result)
    requires Inv(a) && d in a.dirs && i < MAXFD && j < MAXFD
  {
    MemAllocInv(a, FdKey(d, j), SHARED);
    var (b, c1) := MemAlloc(a, FdKey(d, j), SHARED);
    if !c1.Ok? then (Err1(b, d, i), Failed)
    else
      MemAllocInv(b, DataKey(d, i), SHARED);
      var (e, c2) := MemAlloc(b, DataKey(d, i), SHARED);
      if !c2.Ok? then (Err2(e, d, i, j), Failed)
      else
        MemMapInv(e, DataKey(d, i), DataKey(d, j), SHARED);
        var (f, c3) := MemMap(e, DataKey(d, i), DataKey(d, j), SHARED);
        if !c3.Ok? then (Err3(f, d, i, j), Failed) else (f, Made(i, j))
  }

  // ---------- failure ----------

  lemma UnmapFlat(s: State, k: Key)
    requires Inv(s) && Va(k) && k.d in s.dirs && k.x < UTOPX
    ensures Flat(Unmap(s, k)) == Flat(s) - {k} && Unmap(s, k).dirs == s.dirs
  {
    MemUnmapInv(s, k);
  }

  lemma SameFlat(s: State, r: State)
    requires Inv(s) && Inv(r) && Entries(s) == Entries(r)
    ensures Flat(s) == Flat(r)
  {}

  /** pipe(), with its two descriptors found, gets as far as mapping a data page of its own. */
  predicate HasData(a: State, d: nat, i: nat, j: nat)
    requires Inv(a) && d in a.dirs && i < MAXFD && j < MAXFD
  {
    MemAllocInv(a, FdKey(d, j), SHARED);
    var (b, c1) := MemAlloc(a, FdKey(d, j), SHARED);
    c1.Ok? && MemAlloc(b, DataKey(d, i), SHARED).1.Ok?
  }

  predicate Replaces(s: State, d: nat)
    requires Inv(s) && d in s.dirs
  {
    var i := FdFrom(s, d, 0);
    i.Some? && (MemAllocInv(s, FdKey(d, i.value), SHARED);
                var (a, c) := MemAlloc(s, FdKey(d, i.value), SHARED);
                c.Ok? && FdFrom(a, d, 0).Some? && HasData(a, d, i.value, FdFrom(a, d, 0).value))
  }

  lemma RestFails(s: State, a: State, d: nat, i: nat, j: nat, p: Word)
    requires Inv(s) && Inv(a) && d in a.dirs && i < j < MAXFD && FdKey(d, i) !in Flat(s) && FdKey(d, j) !in Flat(s)
    requires Flat(a) == Flat(s)[FdKey(d, i) := p] && Rest(a, d, i, j).1 == Failed
    ensures Inv(Rest(a, d, i, j).0)
    ensures Flat(Rest(a, d, i, j).0) == if HasData(a, d, i, j) then Flat(s) - {DataKey(d, i)} else Flat(s)
  {
    hide Inv, Flat, MemAlloc, MemMap, MemUnmap, Unmap;
    MemAllocInv(a, FdKey(d, j), SHARED);
    var (b, c1) := MemAlloc(a, FdKey(d, j), SHARED);
    if !c1.Ok? {
      SameFlat(a, b);
      UnmapFlat(b, FdKey(d, i));
    } else {
      MemAllocInv(b, DataKey(d, i), SHARED);
      var (e, c2) := MemAlloc(b, DataKey(d, i), SHARED);
      if !c2.Ok? {
        SameFlat(b, e);
        UnmapFlat(e, FdKey(d, j));
        UnmapFlat(Unmap(e, FdKey(d, j)), FdKey(d, i));
      } else {
        MemMapInv(e, DataKey(d, i), DataKey(d, j), SHARED);
        var (f, c3) := MemMap(e, DataKey(d, i), DataKey(d, j), SHARED);
        UnmapFlat(f, DataKey(d, i));
        var g := Unmap(f, DataKey(d, i));
        UnmapFlat(g, FdKey(d, j));
        UnmapFlat(Unmap(g, FdKey(d, j)), FdKey(d, i));
      }
    }
  }

  lemma FdUnmapped(s: State, d: nat)
    requires Inv(s)
    ensures var r := FdFrom(s, d, 0);
            r.Some? ==>
              && FdKey(d, r.value) !in Flat(s) && r.value < MAXFD - 1
              && forall k: nat :: k < r.value ==> FdKey(d, k) in Flat(s)
  {
    hide Clean, Count, Counted, Distinct, FreeList, Bounded;
    var r := FdFrom(s, d, 0);
    if r.Some? {
      forall k: nat | k < r.value ensures FdKey(d, k) in Flat(s) { assert Named(s, AtPte(FdKey(d, k))); }
    }
  }

  lemma FdGrows(f: map<Key, Word>, g: map<Key, Word>, d: nat, i: nat, j: nat, p: Word)
    requires g == f[FdKey(d, i) := p] && FdKey(d, j) !in g && forall k: nat :: k < i ==> FdKey(d, k) in f
    ensures i < j && FdKey(d, j) !in f
  {}

  lemma FirstFails(s: State, d: nat, i: nat)
    requires Inv(s) && d in s.dirs && FdFrom(s, d, 0) == Some(i)
    requires !MemAlloc(s, FdKey(d, i), SHARED).1.Ok?
    ensures Inv(MemAlloc(s, FdKey(d, i), SHARED).0) && Flat(MemAlloc(s, FdKey(d, i), SHARED).0) == Flat(s)
  {
    MemAllocInv(s, FdKey(d, i), SHARED);
    SameFlat(s, MemAlloc(s, FdKey(d, i), SHARED).0);
  }

  lemma NoSecond(s: State, a: State, d: nat, i: nat, p: Word)
    requires Inv(s) && Inv(a) && d in a.dirs && i < MAXFD && FdKey(d, i) !in Flat(s)
    requires Flat(a) == Flat(s)[FdKey(d, i) := p]
    ensures Flat(Err1(a, d, i)) == Flat(s)
  {
    hide Clean, Count, Counted, Distinct, FreeList, Bounded, Flat;
    UnmapFlat(a, FdKey(d, i));
  }

  /** A pipe() that fails takes back every mapping it made. What the caller had at the data
      address of the first descriptor is gone exactly if the failure came after it was replaced. */
  lemma FailureUndone(s: State, d: nat)
    requires Inv(s) && d in s.dirs && Pipe(s, d).1 == Failed
    ensures Inv(Pipe(s, d).0)
    ensures var i := FdFrom(s, d, 0);
            Flat(Pipe(s, d).0) == if i.Some? && Replaces(s, d) then Flat(s) - {DataKey(d, i.value)} else Flat(s)
  {
    if FdFrom(s, d, 0).Some? {
      var i := FdFrom(s, d, 0).value;
      MemAllocInv(s, FdKey(d, i), SHARED);
      FdUnmapped(s, d);
      hide Clean, Count, Counted, Distinct, FreeList, Bounded, Flat, MemAlloc, MemMap, MemUnmap, Unmap, Rest, FdFrom;
      var (a, c) := MemAlloc(s, FdKey(d, i), SHARED);
      if !c.Ok? {
        FirstFails(s, d, i);
      } else if FdFrom(a, d, 0) == None {
        NoSecond(s, a, d, i, Word(s.free[0], SHARED));
      } else {
        var j := FdFrom(a, d, 0).value;
        FdUnmapped(a, d);
        FdGrows(Flat(s), Flat(a), d, i, j, Word(s.free[0], SHARED));
        RestFails(s, a, d, i, j, Word(s.free[0], SHARED));
      }
    }
  }

  // ---------- success ----------

  /** The virtual pages that map page p. */
  ghost function Users(f: map<Key, Word>, p: nat): set<Key> { set k | k in f && f[k].pfn == p }

  lemma SetOfPtes(ks: set<Key>, ls: set<Loc>)
    requires forall l :: l in ls <==> l.AtPte? && l.k in ks
    ensures |ls| == |ks|
    decreases |ks|
  {
    if ks == {} {
      assert ls == {};
    } else {
      var k :| k in ks;
      SetOfPtes(ks - {k}, ls - {AtPte(k)});
    }
  }

  /** A page that somebody maps is counted once for each mapping, plus its pins. */
  lemma UserCount(s: State, p: nat, k: Key)
    requires Inv(s) && p < NPAGE && k in Flat(s) && Flat(s)[k].pfn == p
    ensures s.ref[p] == |Users(Flat(s), p)| + s.pins[p]
  {
    hide CleanAt, FreeList, Bounded;
    var ls := set l | l in Entries(s) && Entries(s)[l].pfn == p;
    assert AtPte(k) in ls;
    forall l ensures l in ls <==> l.AtPte? && l.k in Users(Flat(s), p) {
      if l in ls && l != AtPte(k) { assert Entries(s)[l].pfn == Entries(s)[AtPte(k)].pfn; }
    }
    SetOfPtes(Users(Flat(s), p), ls);
  }

  lemma FreePage(s: State)
    requires Inv(s) && s.free != []
    ensures s.free[0] < NPAGE && s.pins[s.free[0]] == 0 && s.ref[s.free[0]] == 0
  {
    assert s.free[0] in s.free;
    UnreferencedIsUnnamed(s, s.free[0]);
  }

  /** The three pages of a new pipe. */
  datatype Pages3 = Pages3(fd0: Frame, fd1: Frame, data: Frame)

  lemma RestMakes(s: State, a: State, d: nat, i: nat, j: nat, p: nat) returns (q: Pages3)
    requires Inv(s) && Inv(a) && d in a.dirs && i < j < MAXFD && p < NPAGE
    requires Flat(a) == Flat(s)[FdKey(d, i) := Word(p, SHARED)] && a.pins[p] == 1
    requires FdKey(d, i) !in Flat(s) && FdKey(d, j) !in Flat(s)
    requires (forall k :: k in Flat(s) ==> Flat(s)[k].pfn != p) && Rest(a, d, i, j).1 == Made(i, j)
    ensures var f := Rest(a, d, i, j).0;
            && Inv(f) && f.dirs == a.dirs && q.fd0 == p && q.fd1 < NPAGE && q.data < NPAGE
            && q.fd0 != q.fd1 && q.fd0 != q.data && q.fd1 != q.data
            && Flat(f) == Flat(s)[FdKey(d, i) := Word(p, SHARED)][FdKey(d, j) := Word(q.fd1, SHARED)]
                          [DataKey(d, i) := Word(q.data, SHARED)][DataKey(d, j) := Word(q.data, SHARED)]
            && f.pins[q.fd0] == f.pins[q.fd1] == f.pins[q.data] == 1
            && (forall k :: k in Flat(s) ==> Flat(s)[k].pfn != q.fd1 && Flat(s)[k].pfn != q.data)
  {
    hide Flat, MemAlloc, MemMap, MemUnmap, Unmap;
    MemAllocInv(a, FdKey(d, j), SHARED);
    var (b, c1) := MemAlloc(a, FdKey(d, j), SHARED);
    FreePage(a);
    MemAllocInv(b, DataKey(d, i), SHARED);
    var (e, c2) := MemAlloc(b, DataKey(d, i), SHARED);
    FreePage(b);
    MemMapInv(e, DataKey(d, i), DataKey(d, j), SHARED);
    hide Inv;
    q := Pages3(p, a.free[0], b.free[0]);
    assert Flat(a)[FdKey(d, i)].pfn == p;
    assert Flat(b)[FdKey(d, i)].pfn == p && Flat(b)[FdKey(d, j)].pfn == q.fd1;
    forall k | k in Flat(s) ensures Flat(s)[k].pfn != q.fd1 && Flat(s)[k].pfn != q.data {
      assert k in Flat(a) && Flat(a)[k] == Flat(s)[k];
      assert k in Flat(b) && Flat(b)[k] == Flat(s)[k];
    }
  }

  lemma PipeUsers(f: map<Key, Word>, g: map<Key, Word>, d: nat, i: nat, j: nat, q: Pages3)
    requires i < j < MAXFD && q.fd0 != q.fd1 && q.fd0 != q.data && q.fd1 != q.data
    requires forall k :: k in f ==> f[k].pfn != q.fd0 && f[k].pfn != q.fd1 && f[k].pfn != q.data
    requires g == f[FdKey(d, i) := Word(q.fd0, SHARED)][FdKey(d, j) := Word(q.fd1, SHARED)]
                   [DataKey(d, i) := Word(q.data, SHARED)][DataKey(d, j) := Word(q.data, SHARED)]
    ensures Users(g, q.fd0) == {FdKey(d, i)} && Users(g, q.fd1) == {FdKey(d, j)}
    ensures Users(g, q.data) == {DataKey(d, i), DataKey(d, j)} && |Users(g, q.data)| == 2
  {}

  /** A pipe() that succeeds maps three fresh pages at its two descriptors, the data page behind
      both, and their counts are those with which the closed test starts: one for each mapping
      and one more on every page. */
  lemma PipeCounts(s: State, d: nat) returns (q: Pages3)
    requires Inv(s) && d in s.dirs && Pipe(s, d).1.Made?
    ensures var (f, r) := Pipe(s, d);
            && Inv(f) && r.i < r.j && q.fd0 < NPAGE && q.fd1 < NPAGE && q.data < NPAGE
            && Flat(f) == Flat(s)[FdKey(d, r.i) := Word(q.fd0, SHARED)][FdKey(d, r.j) := Word(q.fd1, SHARED)]
                          [DataKey(d, r.i) := Word(q.data, SHARED)][DataKey(d, r.j) := Word(q.data, SHARED)]
            && f.ref[q.fd0] == PipeClosed.FdRef(PipeClosed.Start(0).procs, PipeClosed.Reads)
            && f.ref[q.fd1] == PipeClosed.FdRef(PipeClosed.Start(0).procs, PipeClosed.Writes)
            && f.ref[q.data] == PipeClosed.DataRef(PipeClosed.Start(0).procs)
  {
    var a, i, j := PipeSteps(s, d);
    hide *;
    q := RestMakes(s, a, d, i, j, s.free[0]);
    var f := Rest(a, d, i, j).0;
    PipeRefs(s, f, d, i, j, q);
    StartCounts();
  }

  lemma PipeRefs(s: State, f: State, d: nat, i: nat, j: nat, q: Pages3)
    requires Inv(s) && Inv(f) && i < j < MAXFD && q.fd0 != q.fd1 && q.fd0 != q.data && q.fd1 != q.data
    requires q.fd0 < NPAGE && q.fd1 < NPAGE && q.data < NPAGE && f.pins[q.fd0] == f.pins[q.fd1] == f.pins[q.data] == 1
    requires forall k :: k in Flat(s) ==> Flat(s)[k].pfn != q.fd0 && Flat(s)[k].pfn != q.fd1 && Flat(s)[k].pfn != q.data
    requires Flat(f) == Flat(s)[FdKey(d, i) := Word(q.fd0, SHARED)][FdKey(d, j) := Word(q.fd1, SHARED)]
                        [DataKey(d, i) := Word(q.data, SHARED)][DataKey(d, j) := Word(q.data, SHARED)]
    ensures f.ref[q.fd0] == 2 && f.ref[q.fd1] == 2 && f.ref[q.data] == 3
  {
    PipeUsers(Flat(s), Flat(f), d, i, j, q);
    assert Shape(f);
    hide Inv, Flat, Users;
    UserCount(f, q.fd0, FdKey(d, i));
    UserCount(f, q.fd1, FdKey(d, j));
    UserCount(f, q.data, DataKey(d, i));
  }

  /** What holds when pipe() has its first page and goes on to the second. */
  lemma PipeSteps(s: State, d: nat) returns (a: State, i: nat, j: nat)
    requires Inv(s) && d in s.dirs && Pipe(s, d).1.Made?
    ensures Inv(a) && a.dirs == s.dirs && s.free != [] && s.free[0] < NPAGE && i < j < MAXFD
    ensures FdKey(d, i) !in Flat(s) && FdKey(d, j) !in Flat(s)
    ensures Flat(a) == Flat(s)[FdKey(d, i) := Word(s.free[0], SHARED)] && a.pins[s.free[0]] == 1
    ensures forall k :: k in Flat(s) ==> Flat(s)[k].pfn != s.free[0]
    ensures Pipe(s, d) == Rest(a, d, i, j) && Pipe(s, d).1 == Made(i, j)
  {
    i := FdFrom(s, d, 0).value;
    MemAllocInv(s, FdKey(d, i), SHARED);
    a := MemAlloc(s, FdKey(d, i), SHARED).0;
    j := FdFrom(a, d, 0).value;
    FdUnmapped(s, d);
    FdUnmapped(a, d);
    FreePage(s);
    RestNames(a, d, i, j);
    hide Inv, Shape, Flat, MemAlloc, FdFrom, Rest;
    FdGrows(Flat(s), Flat(a), d, i, j, Word(s.free[0], SHARED));
  }

  lemma RestNames(a: State, d: nat, i: nat, j: nat)
    requires Inv(a) && d in a.dirs && i < MAXFD && j < MAXFD
    ensures Rest(a, d, i, j).1.Made? ==> Rest(a, d, i, j).1 == Made(i, j)
  {
    hide Inv, MemAlloc, MemMap, MemUnmap, Unmap;
  }

  lemma StartCounts()
    ensures PipeClosed.FdRef(PipeClosed.Start(0).procs, PipeClosed.Reads) == 2
    ensures PipeClosed.FdRef(PipeClosed.Start(0).procs, PipeClosed.Writes) == 2
    ensures PipeClosed.DataRef(PipeClosed.Start(0).procs) == 3
  {
    var ps := PipeClosed.Start(0).procs;
    assert |ps| == 1 && ps[..0] == [];
  }
}
