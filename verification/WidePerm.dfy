/** The perm argument of the memory calls is a 32-bit number, and page_insert (mm/pmap.c) stores
    page2pa(pp) | perm | PTE_V without masking it: bits above the low twelve go into the frame number
    of the entry. A perm is split like any table word. */
module WidePerm {
  import opened Wrappers
  import opened Mmu
  import opened Pmap
  import opened MemCalls

  /** The word page_insert stores for page p. */
  function Stored(p: Frame, perm: Word): Word { Word(Or(p, perm.pfn), perm.fl.(v := true)) }

  /** The entry names the page that is inserted. */
  predicate Fits(p: Frame, perm: Word) { Or(p, perm.pfn) == p }

  function PermInsert(s: State, k: Key, p: Frame, perm: Word): (State, bool)
    requires Inv(s) && k.d in s.dirs && k.x < UTOPX && k.t < NWORD && p < NPAGE
  {
    Insert(s, k, p, Stored(p, perm))
  }

  /** Storing another word at the same place afterwards. */
  lemma Rewritten(s: State, k: Key, w: Word, x: Word)
    requires Shape(s) && Distinct(Entries(s)) && HasTable(s, k.d, k.x) && k.t < NWORD
    ensures var g := Write(s, s.mem[k.d][k.x].pfn, k.t, w);
            && g.mem[k.d][k.x].pfn == s.mem[k.d][k.x].pfn
            && Write(g, s.mem[k.d][k.x].pfn, k.t, x) == Write(s, s.mem[k.d][k.x].pfn, k.t, x)
  {
    DirsApart(s, AtPde(k.d, k.x), s.mem[k.d][k.x].pfn);
    hide Distinct, Entries;
    var t := s.mem[k.d][k.x].pfn;
    assert s.mem[t][k.t := w][k.t := x] == s.mem[t][k.t := x];
    assert s.mem[t := s.mem[t][k.t := w]][t := s.mem[t][k.t := x]] == s.mem[t := s.mem[t][k.t := x]];
  }

  lemma SlotStays(s: State, k: Key, p: Frame, w: Word, x: Word)
    requires Inv(s) && k.d in s.dirs && k.x < UTOPX && k.t < NWORD && Mappable(s, p) && w.pfn == p && w.fl.v
    requires Insert(s, k, p, w).1
    ensures Insert(s, k, p, x).1
    ensures var g := Insert(s, k, p, w).0;
            && Shape(g) && k.d < NPAGE && g.mem[k.d][k.x].pfn < NPAGE
            && Insert(s, k, p, x).0 == Write(g, g.mem[k.d][k.x].pfn, k.t, x)
  {
    if Named(s, AtPte(k)) && At(s, AtPte(k)).pfn == p {
      Rewritten(s, k, w, x);
    } else {
      PageRemoveInv(s, k);
      WalkInv(PageRemove(s, k), k.d, k.x);
      var b := Walk(PageRemove(s, k), k.d, k.x).value;
      SameTables(b, Claim(b, p));
      Rewritten(Claim(b, p), k, w, x);
    }
    hide Clean, Count, Counted, Distinct, Bounded, FreeList, KeepsData, Entries;
  }

  lemma EntryNamed(s: State, k: Key)
    requires Shape(s) && AtPte(k) in Entries(s)
    ensures HasTable(s, k.d, k.x) && Named(s, AtPte(k)) && At(s, AtPte(k)) == Entries(s)[AtPte(k)]
  {}

  /** Whatever is stored, page_insert succeeds on the same states, and does the same but for the word
      it stores. */
  lemma InsertAnother(s: State, k: Key, p: Frame, fl: Flags, x: Word)
    requires Inv(s) && k.d in s.dirs && k.x < UTOPX && k.t < NWORD && Mappable(s, p) && p < NPAGE
    ensures Insert(s, k, p, x).1 == PageInsert(s, k, p, fl).1
    ensures !PageInsert(s, k, p, fl).1 ==> Insert(s, k, p, x) == PageInsert(s, k, p, fl)
    ensures PageInsert(s, k, p, fl).1 ==>
              var g := PageInsert(s, k, p, fl).0;
              && Inv(g) && HasTable(g, k.d, k.x) && k.d < NPAGE && g.mem[k.d][k.x].pfn < NPAGE
              && Named(g, AtPte(k)) && At(g, AtPte(k)) == Word(p, fl.(v := true))
              && Insert(s, k, p, x).0 == Write(g, g.mem[k.d][k.x].pfn, k.t, x)
  {
    SameOutcome(s, k, p, Word(p, fl.(v := true)), x);
    hide Inv, Insert, Entries, Shape, Named, At, HasTable, Mappable, KeepsData;
    if PageInsert(s, k, p, fl).1 {
      var g := PageInsert(s, k, p, fl).0;
      PageInsertInv(s, k, p, fl);
      InvShape(g);
      EntryNamed(g, k);
      SlotStays(s, k, p, Word(p, fl.(v := true)), x);
    }
  }

  lemma SameOutcome(s: State, k: Key, p: Frame, w: Word, x: Word)
    requires Inv(s) && k.d in s.dirs && k.x < UTOPX && k.t < NWORD && p < NPAGE
    ensures Insert(s, k, p, x).1 == Insert(s, k, p, w).1
    ensures !Insert(s, k, p, w).1 ==> Insert(s, k, p, x) == Insert(s, k, p, w)
  {
    hide Inv;
  }

  /** Renaming one counted entry takes a reference from the page it named. */
  lemma Miscounted(m: map<Loc, Word>, l: Loc, x: Word)
    requires l in m && x.pfn != m[l].pfn
    ensures Count(m[l := x], m[l].pfn) + 1 == Count(m, m[l].pfn)
  {
    var p := m[l].pfn;
    CountPut(m - {l}, l, m[l], p);
    CountPut(m - {l}, l, x, p);
    assert (m - {l})[l := m[l]] == m && (m - {l})[l := x] == m[l := x];
  }

  lemma RenamedNotInv(g: State, k: Key, x: Word, r: State)
    requires Inv(g) && HasTable(g, k.d, k.x) && k.t < NWORD && Named(g, AtPte(k)) && x.fl.v
    requires k.d < NPAGE && g.mem[k.d][k.x].pfn < NPAGE && r == Write(g, g.mem[k.d][k.x].pfn, k.t, x)
    ensures Shape(r) && Named(r, AtPte(k)) && At(r, AtPte(k)) == x
    ensures x.pfn != At(g, AtPte(k)).pfn ==> !Inv(r)
  {
    WritePte(g, k, x);
    assert AtPte(k) in Entries(r) && AtPte(k) in Entries(g);
    if x.pfn != At(g, AtPte(k)).pfn { Miscounted(Entries(g), AtPte(k), x); }
    hide Distinct, Clean, FreeList, Count, Entries;
  }

  /** page_insert with any perm: the entry names the page or'ed with the high bits. The call is that of
      the low twelve bits, and the accounting stays exact, if and only if that is the page itself. */
  lemma WideInsert(s: State, k: Key, p: Frame, perm: Word)
    requires Inv(s) && k.d in s.dirs && k.x < UTOPX && k.t < NWORD && Mappable(s, p) && p < NPAGE
    ensures PermInsert(s, k, p, perm).1 == PageInsert(s, k, p, perm.fl).1
    ensures !PermInsert(s, k, p, perm).1 ==> PermInsert(s, k, p, perm) == PageInsert(s, k, p, perm.fl)
    ensures PermInsert(s, k, p, perm).1 ==>
              var r := PermInsert(s, k, p, perm).0;
              && Shape(r) && Named(r, AtPte(k)) && At(r, AtPte(k)) == Stored(p, perm)
              && (Inv(r) <==> Fits(p, perm)) && (Fits(p, perm) ==> r == PageInsert(s, k, p, perm.fl).0)
  {
    InsertAnother(s, k, p, perm.fl, Stored(p, perm));
    hide Inv, Insert, Shape, Entries, Mappable, Named, At, HasTable, Or, PageInsert;
    if PermInsert(s, k, p, perm).1 {
      var g := PageInsert(s, k, p, perm.fl).0;
      InvShape(g);
      RenamedNotInv(g, k, Stored(p, perm), PermInsert(s, k, p, perm).0);
      if Fits(p, perm) { PermFits(s, k, p, perm); }
    }
  }

  lemma NarrowFits(perm: Word)
    ensures perm.pfn == 0 ==> forall p: Frame :: Fits(p, perm)
  {
    forall p: Frame ensures Or(p, 0) == p { OrNothing(p); }
    hide Or;
  }

  lemma PermFits(s: State, k: Key, p: Frame, perm: Word)
    requires Inv(s) && k.d in s.dirs && k.x < UTOPX && k.t < NWORD && p < NPAGE && Fits(p, perm)
    ensures PermInsert(s, k, p, perm) == PageInsert(s, k, p, perm.fl)
  {
    hide Inv, Insert, Or;
  }

  // ---------- the system calls ----------

  /** sys_mem_alloc. */
  function PermAlloc(s: State, k: Key, perm: Word): (State, Code)
    requires Inv(s) && Va(k)
  {
    if k.x >= UTOPX then (s, Unspecified)
    else if perm.fl.cow || !perm.fl.v then (s, Inval)
    else if k.d !in s.dirs then (s, BadEnv)
    else match PageAlloc(s)
      case None => (s, NoMem)
      case Some((p, a)) =>
        PinAllocated(s);
        var (r, ok) := PermInsert(Pin(a, p), k, p, perm);
        (r, if ok then Ok else NoMem)
  }

  /** sys_mem_map. */
  function PermMap(s: State, src: Key, dst: Key, perm: Word): (State, Code)
    requires Inv(s) && Va(src) && Va(dst)
  {
    if src.x >= UTOPX || dst.x >= UTOPX then (s, Unspecified)
    else if !perm.fl.v then (s, Inval)
    else if src.d !in s.dirs then (s, BadEnv)
    else if dst.d !in s.dirs then (s, BadEnv)
    else match Lookup(s, src)
      case None => (s, Unspecified)
      case Some(w) =>
        LookupMappable(s, src);
        var (r, ok) := PermInsert(s, dst, w.pfn, perm);
        (r, if ok then Ok else NoMem)
  }

  /** sys_mem_alloc with any 32-bit perm: it is the call with the low twelve bits, and keeps the kernel's
      invariant, if and only if it fails or the high bits are all in the number of the page it takes. */
  lemma WideAlloc(s: State, k: Key, perm: Word)
    requires Inv(s) && Va(k)
    ensures var (r, c) := PermAlloc(s, k, perm);
            && c == MemAlloc(s, k, perm.fl).1
            && (c.Ok? ==> s.free != [] && s.free[0] < NPAGE && Shape(r) && Named(r, AtPte(k))
                          && At(r, AtPte(k)) == Stored(s.free[0], perm))
            && (c.Ok? && !Fits(s.free[0], perm) ==> !Inv(r))
            && (!c.Ok? || Fits(s.free[0], perm) ==> Inv(r) && r == MemAlloc(s, k, perm.fl).0)
  {
    MemAllocInv(s, k, perm.fl);
    if k.x < UTOPX && !perm.fl.cow && perm.fl.v && k.d in s.dirs && s.free != [] {
      PinAllocated(s);
      var (p, a) := PageAlloc(s).value;
      hide Inv, PermInsert, PageInsert, Stored, Fits, Named, At, Mappable, KeepsData, Entries, Flat;
      WideInsert(Pin(a, p), k, p, perm);
    }
    hide Inv, PermInsert, PageInsert, Stored, Fits, Named, At, Mappable, KeepsData, Entries, Flat;
  }

  /** sys_mem_map with any 32-bit perm, likewise. */
  lemma WideMap(s: State, src: Key, dst: Key, perm: Word)
    requires Inv(s) && Va(src) && Va(dst)
    ensures var (r, c) := PermMap(s, src, dst, perm);
            && c == MemMap(s, src, dst, perm.fl).1
            && (c.Ok? ==> src in Flat(s) && Flat(s)[src].pfn < NPAGE && Shape(r) && Named(r, AtPte(dst))
                          && At(r, AtPte(dst)) == Stored(Flat(s)[src].pfn, perm))
            && (c.Ok? && !Fits(Flat(s)[src].pfn, perm) ==> !Inv(r))
            && (!c.Ok? || Fits(Flat(s)[src].pfn, perm) ==> Inv(r) && r == MemMap(s, src, dst, perm.fl).0)
  {
    hide Inv, PermInsert, PageInsert, Stored, Fits, Mappable, KeepsData, Entries, Flat, Named, At, Shape;
    InvShape(s);
    MemMapInv(s, src, dst, perm.fl);
    if Named(s, AtPte(src)) {
      SourceMappable(s, src);
      LookupMappable(s, src);
      MappedInRange(s, src);
      if dst.x < UTOPX && dst.d in s.dirs { WideInsert(s, dst, At(s, AtPte(src)).pfn, perm); }
    }
  }

  lemma MappedInRange(s: State, k: Key)
    requires Inv(s) && Named(s, AtPte(k))
    ensures At(s, AtPte(k)).pfn < NPAGE
  {
    assert AtPte(k) in Entries(s);
  }

  lemma Perm1200()
    ensures FromNumber(0x1200) == Word(1, V)
  {
    assert BitsFlag(0x200) == V;
  }

  /** perm 0x1200 has PTE_V and bit 12. Mapping an even page with it makes an entry for the page after
      it, which nobody counts. */
  lemma WideMapInstance(s: State, src: Key, dst: Key)
    requires Inv(s) && Va(src) && Va(dst) && src in Flat(s) && Flat(s)[src].pfn % 2 == 0
    requires MemMap(s, src, dst, V).1.Ok?
    ensures var (r, c) := PermMap(s, src, dst, FromNumber(0x1200));
            c.Ok? && Shape(r) && Named(r, AtPte(dst)) && At(r, AtPte(dst)).pfn == Flat(s)[src].pfn + 1 && !Inv(r)
  {
    hide *;
    InvShape(s);
    Perm1200();
    WideMap(s, src, dst, Word(1, V));
    OneMore(Flat(s)[src].pfn);
  }

  lemma OneMore(p: Frame)
    requires p % 2 == 0
    ensures Stored(p, Word(1, V)).pfn == p + 1 && !Fits(p, Word(1, V))
  {
    OrOne(p);
    hide Or;
  }
}
