/** What an address space leaves behind: from env_setup_vm, through any memory calls made on
    it, to env_free. */
module Lifetime {
  import opened Wrappers
  import opened Mmu
  import opened Pmap
  import opened Space
  import opened MemCalls

  datatype Call = Alloc(k: Key, fl: Flags) | Map(src: Key, dst: Key, fl: Flags) | Unmap(k: Key)

  /** A call that changes address space `d` only; Map may read any address space. */
  predicate On(c: Call, d: nat) {
    match c
    case Alloc(k, _) => Va(k) && k.d == d
    case Map(src, dst, _) => Va(src) && Va(dst) && dst.d == d
    case Unmap(k) => Va(k) && k.d == d
  }

  function Do(s: State, c: Call, d: nat): State
    requires Inv(s) && On(c, d)
  {
    match c
    case Alloc(k, fl) => MemAlloc(s, k, fl).0
    case Map(src, dst, fl) => MemMap(s, src, dst, fl).0
    case Unmap(k) => MemUnmap(s, k).0
  }

  /** The call is an allocation that gets as far as taking a page. */
  predicate Takes(s: State, c: Call) {
    c.Alloc? && c.k.x < UTOPX && !c.fl.cow && c.fl.v && c.k.d in s.dirs && s.free != []
  }

  lemma DoInv(s: State, c: Call, d: nat)
    requires Inv(s) && On(c, d)
    ensures Inv(Do(s, c, d))
  {
    hide MemAlloc, MemMap, MemUnmap, Inv;
    match c
    case Alloc(k, fl) => MemAllocInv(s, k, fl);
    case Map(src, dst, fl) => MemMapInv(s, src, dst, fl);
    case Unmap(k) => MemUnmapInv(s, k);
  }

  function Run(s: State, cs: seq<Call>, d: nat): State
    requires Inv(s) && forall c :: c in cs ==> On(c, d)
    decreases |cs|
  {
    if cs == [] then s
    else
      DoInv(s, cs[0], d);
      Run(Do(s, cs[0], d), cs[1..], d)
  }

  /** Some call of the run takes a page. */
  predicate Took(s: State, cs: seq<Call>, d: nat)
    requires Inv(s) && forall c :: c in cs ==> On(c, d)
    decreases |cs|
  {
    cs != [] && (Takes(s, cs[0]) || (DoInv(s, cs[0], d); Took(Do(s, cs[0], d), cs[1..], d)))
  }

  lemma WithoutPut(m: map<Loc, Word>, l: Loc, w: Word, d: nat)
    requires Owner(l) == d
    ensures Without(m[l := w], d) == Without(m, d)
    ensures Without(m - {l}, d) == Without(m, d)
  {
    assert Without(m[l := w], d) == Without(m, d);
    assert Without(m - {l}, d) == Without(m, d);
  }

  lemma InsertOwn(s: State, k: Key, p: nat, fl: Flags)
    requires Inv(s) && k.d in s.dirs && k.x < UTOPX && k.t < NWORD && Mappable(s, p)
    requires PageInsert(s, k, p, fl).1
    ensures Inv(PageInsert(s, k, p, fl).0)
    ensures Without(Entries(PageInsert(s, k, p, fl).0), k.d) == Without(Entries(s), k.d)
  {
    hide CleanAt, Count, Distinct, FreeList, Named, Without, PageInsert, KeepsData, Entries;
    PageInsertInv(s, k, p, fl);
    if !HasTable(s, k.d, k.x) {
      PageInsertAllOrNothing(s, k, p, fl);
      assert s.free[0] in s.free;
      var t := Word(s.free[0], V);
      WithoutPut(Entries(s), AtPde(k.d, k.x), t, k.d);
      WithoutPut(Entries(s)[AtPde(k.d, k.x) := t], AtPte(k), Word(p, fl.(v := true)), k.d);
    } else {
      WithoutPut(Entries(s), AtPte(k), Word(p, fl.(v := true)), k.d);
    }
  }

  /** A page no other address space refers to and nobody had pinned is now pinned. */
  ghost predicate Lost(s: State, r: State, d: nat, p: nat)
    requires Shape(s) && Shape(r)
  {
    p < NPAGE && s.pins[p] == 0 && r.pins[p] > 0 && p !in s.loose
    && forall l :: l in Without(Entries(s), d) ==> Entries(s)[l].pfn != p
  }

  ghost predicate Grown(s: State, r: State)
    requires Shape(s) && Shape(r)
  {
    forall p :: 0 <= p < NPAGE ==> r.pins[p] >= s.pins[p]
  }

  lemma AllocStays(s: State, k: Key, fl: Flags)
    requires Inv(s) && Va(k) && k.d in s.dirs && Takes(s, Alloc(k, fl))
    ensures var r := MemAlloc(s, k, fl).0;
            Inv(r) && Without(Entries(r), k.d) == Without(Entries(s), k.d)
            && Grown(s, r) && Lost(s, r, k.d, s.free[0])
  {
    hide CleanAt, Count, Distinct, Named, Without, PageInsert, KeepsData, Entries;
    MemAllocInv(s, k, fl);
    PinAllocated(s);
    var p := s.free[0];
    assert p in s.free;
    UnreferencedIsUnnamed(s, p);
    var b := Pin(PageAlloc(s).value.1, p);
    PageInsertAllOrNothing(b, k, p, fl);
    if PageInsert(b, k, p, fl).1 {
      InsertOwn(b, k, p, fl);
      PageInsertInv(b, k, p, fl);
    }
    WithoutPart(Entries(s), k.d);
  }

  lemma WithoutPart(m: map<Loc, Word>, d: nat)
    ensures forall l :: l in Without(m, d) ==> l in m && Without(m, d)[l] == m[l]
  {}

  /** One call on address space `d` touches no other address space's references, and pins a
      page exactly when it takes one. */
  lemma DoStays(s: State, c: Call, d: nat)
    requires Inv(s) && On(c, d) && d in s.dirs
    ensures var r := Do(s, c, d);
            && Inv(r) && r.dirs == s.dirs && r.loose == s.loose
            && Without(Entries(r), d) == Without(Entries(s), d)
            && Grown(s, r) && (Takes(s, c) ==> Lost(s, r, d, s.free[0])) && (!Takes(s, c) ==> r.pins == s.pins)
  {
    hide CleanAt, Count, Distinct, FreeList, Named, Without, PageInsert, KeepsData, Entries;
    match c
    case Alloc(k, fl) =>
      MemAllocInv(s, k, fl);
      if Takes(s, c) { AllocStays(s, k, fl); }
    case Map(src, dst, fl) =>
      MemMapInv(s, src, dst, fl);
      if MemMap(s, src, dst, fl).1.Ok? {
        LookupMappable(s, src);
        InsertOwn(s, dst, At(s, AtPte(src)).pfn, fl);
      }
    case Unmap(k) =>
      MemUnmapInv(s, k);
      if MemUnmap(s, k).1.Ok? {
        PageRemoveInv(s, k);
        WithoutPut(Entries(s), AtPte(k), ZERO, d);
      }
  }

  lemma {:induction false} RunStays(s: State, cs: seq<Call>, d: nat)
    requires Inv(s) && (forall c :: c in cs ==> On(c, d)) && d in s.dirs
    ensures var r := Run(s, cs, d);
            && Inv(r) && r.dirs == s.dirs && r.loose == s.loose
            && Without(Entries(r), d) == Without(Entries(s), d)
            && Grown(s, r)
            && (Took(s, cs, d) ==> exists p :: Lost(s, r, d, p)) && (!Took(s, cs, d) ==> r.pins == s.pins)
    decreases |cs|
  {
    hide CleanAt, Count, Distinct, FreeList, Named, Without, Do, Entries;
    if cs != [] {
      DoStays(s, cs[0], d);
      var b := Do(s, cs[0], d);
      RunStays(b, cs[1..], d);
      var r := Run(b, cs[1..], d);
      WithoutPart(Entries(s), d);
      WithoutPart(Entries(b), d);
      if Takes(s, cs[0]) {
        assert Lost(s, r, d, s.free[0]);
      } else if Took(b, cs[1..], d) {
        var p :| Lost(b, r, d, p);
        assert Lost(s, r, d, p);
      }
    }
  }

  /** Counts and the free list are functions of the references, the pins and the loose pages. */
  lemma SameReferences(s: State, r: State)
    requires Inv(s) && Inv(r) && Entries(r) == Entries(s) && r.loose == s.loose
    ensures forall p :: 0 <= p < NPAGE ==> r.ref[p] - r.pins[p] == s.ref[p] - s.pins[p]
    ensures (forall p: nat :: p in r.free <==> p in s.free)
            <== forall p :: 0 <= p < NPAGE ==> r.pins[p] == s.pins[p]
  {
    hide CleanAt, Count, Distinct;
  }

  lemma LostWasFree(s: State, r: State, d: nat, p: nat)
    requires Inv(s) && Inv(r) && p < NPAGE && s.pins[p] == 0 && r.pins[p] > 0 && p !in s.loose
    requires forall l :: l in Entries(s) ==> Entries(s)[l].pfn != p
    ensures p in s.free && p !in r.free
  {
    CountZero(Entries(s), p);
  }

  /** The life of an address space. Whatever calls were made on it, afterwards no reference is
      left but the original ones, each page's count exceeds its old one by exactly the pins it
      gained, and the free pages are the original ones if and only if no sys_mem_alloc took a
      page: a page it takes is never freed again. */
  lemma Life(s: State, boot: seq<Word>, d: nat, a: State, cs: seq<Call>, r: State)
    requires Inv(s) && |boot| == NWORD && SetupVm(s, boot) == Some((d, a)) && Inv(a)
    requires (forall c :: c in cs ==> On(c, d)) && Freed(Run(a, cs, d), d, r)
    ensures Entries(r) == Entries(s)
    ensures forall p :: 0 <= p < NPAGE ==> r.ref[p] - r.pins[p] == s.ref[p] - s.pins[p] && r.pins[p] >= s.pins[p]
    ensures !Took(a, cs, d) <==> forall p: nat :: p in r.free <==> p in s.free
    ensures !Took(a, cs, d) ==> r.ref == s.ref
  {
    hide CleanAt, Clean, Count, Counted, Distinct, Bounded, FreeList, Named, Without, Entries, Untouched;
    SetupVmInv(s, boot);
    RunStays(a, cs, d);
    var b := Run(a, cs, d);
    OwnFirst(s, d);
    SameReferences(s, r);
    if Took(a, cs, d) {
      var p :| Lost(a, b, d, p);
      WithoutPart(Entries(a), d);
      LostWasFree(s, r, d, p);
    }
  }

  lemma OwnFirst(s: State, d: nat)
    requires Shape(s) && d !in s.dirs && d < NPAGE
    ensures Without(Entries(s)[AtDir(d) := Word(d, NOFLAGS)], d) == Entries(s)
  {}
}
