/** Address spaces: how lib/env.c makes one (env_setup_vm) and takes it apart (env_free). */
module Space {
  import opened Wrappers
  import opened Mmu
  import opened Pmap

  /** The directory env_setup_vm fills in page `p`: no user slots, the kernel's slots, and the
      directory itself at UVPT and VPT. */
  function DirPage(boot: seq<Word>, p: nat): (c: seq<Word>)
    requires |boot| == NWORD && p < NPAGE
    ensures |c| == NWORD
  {
    seq(NWORD, i requires 0 <= i < NWORD =>
      if i < UTOPX then ZERO
      else if i == UVPTX then Word(p, VR)
      else if i == VPTX then Word(p, NOFLAGS)
      else boot[i])
  }

  /** env_setup_vm; None when no page is left, where the kernel panics. */
  function SetupVm(s: State, boot: seq<Word>): Option<(nat, State)>
    requires Shape(s) && |boot| == NWORD
  {
    match PageAlloc(s)
    case None => None
    case Some((p, a)) => Some((p, NewDir(Claim(a, p), boot, p)))
  }

  /** `r` is `s` with the new address space `c`. */
  ghost predicate MakesSpace(s: State, c: nat, r: State)
    requires Shape(s)
  {
    exists boot :: |boot| == NWORD && SetupVm(s, boot) == Some((c, r))
  }

  function NewDir(s: State, boot: seq<Word>, p: nat): State
    requires Shape(s) && |boot| == NWORD && p < NPAGE
  {
    s.(mem := s.mem[p := DirPage(boot, p)], dirs := s.dirs + {p})
  }

  lemma NewDirAt(s: State, boot: seq<Word>, p: nat, l: Loc)
    requires Shape(s) && |boot| == NWORD && p < NPAGE && p !in s.dirs
    requires forall l :: l in Entries(s) ==> Entries(s)[l].pfn != p
    ensures var r := NewDir(s, boot, p);
            if l == AtDir(p) then Named(r, l) && At(r, l) == Word(p, NOFLAGS)
            else (Named(r, l) <==> Named(s, l)) && (Named(s, l) ==> At(r, l) == At(s, l))
    ensures CleanAt(s, l) ==> CleanAt(NewDir(s, boot, p), l)
  {
    if l.AtPte? && HasTable(s, l.k.d, l.k.x) {
      assert AtPde(l.k.d, l.k.x) in Entries(s);
    }
  }

  lemma NewDirEntries(s: State, boot: seq<Word>, p: nat)
    requires Shape(s) && |boot| == NWORD && p < NPAGE && p !in s.dirs
    requires forall l :: l in Entries(s) ==> Entries(s)[l].pfn != p
    ensures Entries(NewDir(s, boot, p)) == Entries(s)[AtDir(p) := Word(p, NOFLAGS)]
    ensures Clean(s) ==> Clean(NewDir(s, boot, p))
  {
    var r := NewDir(s, boot, p);
    forall l
      ensures CleanAt(s, l) ==> CleanAt(r, l)
      ensures l == AtDir(p) ==> Named(r, l) && At(r, l) == Word(p, NOFLAGS)
      ensures l != AtDir(p) ==> (Named(r, l) <==> Named(s, l)) && (Named(s, l) ==> At(r, l) == At(s, l))
    {
      NewDirAt(s, boot, p, l);
    }
  }

  /** A new address space adds one reference, to a page that nothing named, and maps nothing. */
  lemma SetupVmInv(s: State, boot: seq<Word>)
    requires Inv(s) && |boot| == NWORD
    ensures SetupVm(s, boot).None? <==> s.free == []
    ensures SetupVm(s, boot).Some? ==>
              var (p, r) := SetupVm(s, boot).value;
              && Inv(r) && p !in s.dirs && r.dirs == s.dirs + {p} && p == s.free[0]
              && r.pins == s.pins && r.loose == s.loose && KeepsData(s, r)
              && Entries(r) == Entries(s)[AtDir(p) := Word(p, NOFLAGS)]
  {
    hide CleanAt, Count, Distinct, FreeList, Named;
    if s.free != [] {
      PageAllocInv(s);
      var (p, a) := PageAlloc(s).value;
      UnreferencedIsUnnamed(a, p);
      var c := Claim(a, p);
      SameTables(a, c);
      assert p !in s.dirs by { if p in s.dirs { DirIsEntry(s, p); } }
      NewDirEntries(c, boot, p);
      var r := NewDir(c, boot, p);
      DistinctPut(Entries(a), AtDir(p), Word(p, NOFLAGS));
      assert AtDir(p) !in Entries(a);
      CountedPut(a, r, AtDir(p), Word(p, NOFLAGS));
      FreeListClaim(a, p);
      FreeListSame(c, r);
      FreeNotLoose(s, p);
      assert p in s.free;
    }
  }

  lemma DirIsEntry(s: State, p: nat)
    requires Shape(s) && p in s.dirs
    ensures AtDir(p) in Entries(s) && Entries(s)[AtDir(p)].pfn == p
  {}

  lemma FreeNotLoose(s: State, p: nat)
    requires Inv(s) && p in s.free
    ensures p !in s.loose
  {}

  // ---------- taking an address space apart ----------

  /** env_free's step for a directory slot whose table is empty: clear the slot, drop the table. */
  function DropTable(s: State, d: nat, x: nat): State
    requires Shape(s) && HasTable(s, d, x) && s.ref[s.mem[d][x].pfn] > 0
  {
    Decref(Write(s, d, x, ZERO), s.mem[d][x].pfn)
  }

  lemma DropTableAt(s: State, d: nat, x: nat, l: Loc)
    requires Shape(s) && Distinct(Entries(s)) && HasTable(s, d, x)
    requires forall t: nat :: !Named(s, AtPte(Key(d, x, t)))
    ensures var r := Write(s, d, x, ZERO);
            if l == AtPde(d, x) then !Named(r, l)
            else (Named(r, l) <==> Named(s, l)) && (Named(s, l) ==> At(r, l) == At(s, l))
    ensures CleanAt(s, l) ==> CleanAt(Write(s, d, x, ZERO), l)
  {
    if l.AtPte? && HasTable(s, l.k.d, l.k.x) {
      assert AtPde(l.k.d, l.k.x) in Entries(s) && AtDir(d) in Entries(s);
      if l.k.d == d && l.k.x == x { assert !Named(s, AtPte(Key(d, x, l.k.t))); }
    }
  }

  lemma DropTableEntries(s: State, d: nat, x: nat)
    requires Shape(s) && Distinct(Entries(s)) && HasTable(s, d, x)
    requires forall t: nat :: !Named(s, AtPte(Key(d, x, t)))
    ensures var w := Write(s, d, x, ZERO);
            Entries(w) == Entries(s) - {AtPde(d, x)} && (Clean(s) ==> Clean(w))
  {
    hide CleanAt, Locs;
    var w := Write(s, d, x, ZERO);
    forall l
      ensures CleanAt(s, l) ==> CleanAt(w, l)
      ensures l == AtPde(d, x) ==> !Named(w, l)
      ensures l != AtPde(d, x) ==> (Named(w, l) <==> Named(s, l)) && (Named(s, l) ==> At(w, l) == At(s, l))
    {
      DropTableAt(s, d, x, l);
    }
  }

  lemma DropTableInv(s: State, d: nat, x: nat)
    requires Inv(s) && HasTable(s, d, x)
    requires forall t: nat :: !Named(s, AtPte(Key(d, x, t)))
    ensures s.ref[s.mem[d][x].pfn] > 0
    ensures var r := DropTable(s, d, x);
            && Inv(r) && r.dirs == s.dirs && r.pins == s.pins && r.loose == s.loose
            && Entries(r) == Entries(s) - {AtPde(d, x)} && KeepsData(s, r)
  {
    hide CleanAt, Count, Counted, Distinct, FreeList;
    DropTableEntries(s, d, x);
    var w := Write(s, d, x, ZERO);
    assert AtPde(d, x) in Entries(s);
    NamedIsReferenced(s, AtPde(d, x));
    var r := DropTable(s, d, x);
    SameTables(w, r);
    FreeListSame(s, w);
    FreeListDecref(w, s.mem[d][x].pfn);
    CountedDrop(s, r, AtPde(d, x));
    DistinctDrop(Entries(s), AtPde(d, x));
    DirIsEntry(s, d);
    forall q: nat | Mappable(s, q) ensures r.mem[q] == s.mem[q] { OwnedIsNotData(s, AtDir(d), q); }
  }

  /** env_free's last step: the directory page itself. */
  function DropDir(s: State, d: nat): State
    requires Shape(s) && d in s.dirs && s.ref[d] > 0
  {
    Decref(s, d).(dirs := s.dirs - {d})
  }

  lemma DropDirInv(s: State, d: nat)
    requires Inv(s) && d in s.dirs
    requires forall x: nat :: !HasTable(s, d, x)
    ensures s.ref[d] > 0
    ensures var r := DropDir(s, d);
            && Inv(r) && r.dirs == s.dirs - {d} && r.pins == s.pins && r.loose == s.loose
            && Entries(r) == Entries(s) - {AtDir(d)} && r.mem == s.mem
  {
    hide Count, Counted, Distinct, FreeList;
    DirIsEntry(s, d);
    NamedIsReferenced(s, AtDir(d));
    var c := Decref(s, d);
    SameTables(s, c);
    var r := DropDir(s, d);
    forall l
      ensures CleanAt(c, l) ==> CleanAt(r, l)
      ensures l != AtDir(d) ==> (Named(r, l) <==> Named(c, l)) && (Named(c, l) ==> At(r, l) == At(c, l))
    {
      DropDirAt(c, r, d, l);
    }
    assert Entries(r) == Entries(s) - {AtDir(d)};
    FreeListDecref(s, d);
    FreeListSame(c, r);
    CountedDrop(s, r, AtDir(d));
    DistinctDrop(Entries(s), AtDir(d));
  }

  lemma DropDirAt(s: State, r: State, d: nat, l: Loc)
    requires Shape(s) && Shape(r) && r.mem == s.mem && r.dirs == s.dirs - {d}
    requires forall x: nat :: !HasTable(s, d, x)
    ensures CleanAt(s, l) ==> CleanAt(r, l)
    ensures l != AtDir(d) ==> (Named(r, l) <==> Named(s, l)) && (Named(s, l) ==> At(r, l) == At(s, l))
  {}

  ghost function Owner(l: Loc): nat {
    match l
    case AtDir(d) => d
    case AtPde(d, _) => d
    case AtPte(k) => k.d
  }

  /** The references that belong to other address spaces. */
  ghost function Without(m: map<Loc, Word>, d: nat): map<Loc, Word> {
    map l | l in m && Owner(l) != d :: m[l]
  }

  /** Every page some entry maps reads as it does in `m`. */
  ghost predicate Untouched(m: seq<seq<Word>>, s: State)
    requires Shape(s)
  {
    |m| == NPAGE && forall l :: l in Entries(s) && l.AtPte? && Entries(s)[l].pfn < NPAGE ==>
      s.mem[Entries(s)[l].pfn] == m[Entries(s)[l].pfn]
  }

  /** `r` is what env_free leaves of `b`. */
  ghost predicate Freed(b: State, d: nat, r: State) {
    && Shape(b) && Inv(r) && Entries(r) == Without(Entries(b), d)
    && r.pins == b.pins && r.loose == b.loose && r.dirs == b.dirs - {d} && Untouched(b.mem, r)
    && SlotsKept(b, r)
  }
}
