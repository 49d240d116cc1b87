/** The kernel's memory code as it runs: pages, counts and the free list updated in place
    (mm/pmap.c, env_setup_vm and env_free of lib/env.c, the memory calls of
    lib/syscall_all.c). Each method is proved to take the state to what the functions of `Pmap`,
    `Space`, `MemCalls` and `WidePerm` say, and to keep the invariant, or to say when it does not. */
module Kernel {
  import opened Wrappers
  import opened Mmu
  import P = Pmap
  import opened Pmap
  import opened Space
  import M = MemCalls
  import W = WidePerm
  import D = DirSlots

  /** The references that are not in the part of address space `d` below slot (x, t). */
  ghost predicate Below(l: Loc, d: nat, x: nat, t: nat) {
    match l
    case AtDir(_) => false
    case AtPde(a, b) => a == d && b < x
    case AtPte(k) => k.d == d && (k.x < x || (k.x == x && k.t < t))
  }

  ghost function Left(m: map<Loc, Word>, d: nat, x: nat, t: nat): map<Loc, Word> {
    map l | l in m && !Below(l, d, x, t) :: m[l]
  }

  lemma LeftNone(m: map<Loc, Word>, d: nat)
    ensures Left(m, d, 0, 0) == m
  {}

  lemma LeftPte(m: map<Loc, Word>, k: Key)
    ensures Left(m, k.d, k.x, k.t) - {AtPte(k)} == Left(m, k.d, k.x, k.t + 1)
  {}

  lemma LeftPde(m: map<Loc, Word>, d: nat, x: nat)
    requires forall l :: l in m && l.AtPte? ==> l.k.t < NWORD
    ensures Left(m, d, x, NWORD) - {AtPde(d, x)} == Left(m, d, x + 1, 0)
  {}

  lemma LeftSkip(m: map<Loc, Word>, d: nat, x: nat)
    requires AtPde(d, x) !in m
    requires forall l :: l in m && l.AtPte? ==> (l.k.d, l.k.x) != (d, x)
    ensures Left(m, d, x, 0) == Left(m, d, x + 1, 0)
  {}

  lemma LeftAll(m: map<Loc, Word>, d: nat)
    requires forall l :: l in m && l.AtPte? ==> l.k.x < UTOPX
    requires forall l :: l in m && l.AtPde? ==> l.px < UTOPX
    ensures Left(m, d, UTOPX, 0) - {AtDir(d)} == Without(m, d)
  {}

  lemma UntouchedStep(s: State, r: State)
    requires Inv(s) && Shape(r) && KeepsData(s, r)
    requires forall l :: l in Entries(r) ==> l in Entries(s) && Entries(s)[l] == Entries(r)[l]
    ensures forall m :: Untouched(m, s) ==> Untouched(m, r)
  {
    forall l | l in Entries(r) && l.AtPte? ensures Mappable(s, Entries(r)[l].pfn) { M.LookupMappable(s, l.k); }
  }

  lemma UntouchedLess(m: seq<seq<Word>>, s: State, r: State)
    requires Shape(s) && Shape(r) && Untouched(m, s) && r.mem == s.mem
    requires forall l :: l in Entries(r) ==> l in Entries(s) && Entries(s)[l] == Entries(r)[l]
    ensures Untouched(m, r)
  {}

  class Memory {
    var mem: seq<seq<Word>>
    var ref: seq<nat>
    var free: seq<nat>
    ghost var dirs: set<nat>
    ghost var pins: seq<nat>
    ghost var loose: set<nat>

    ghost function S(): State
      reads this
    {
      State(mem, ref, free, dirs, pins, loose)
    }

    ghost predicate Valid()
      reads this
    {
      Inv(S())
    }

    /** page_init: the first `boot` pages belong to the kernel, the others are free. */
    constructor PageInit(boot: nat, ram: seq<seq<Word>>)
      requires boot <= NPAGE && |ram| == NPAGE && forall p :: 0 <= p < NPAGE ==> |ram[p]| == NWORD
      ensures Valid() && mem == ram && dirs == {} && loose == {}
      ensures |free| == NPAGE - boot && forall i :: 0 <= i < |free| ==> free[i] == NPAGE - 1 - i
    {
      mem, ref, free := ram, seq(NPAGE, _ => 0), [];
      dirs, pins, loose := {}, seq(NPAGE, p => if p < boot then 1 else 0), {};
      new;
      var i := 0;
      while i < boot
        invariant 0 <= i <= boot && |ref| == NPAGE && free == []
        invariant forall p :: 0 <= p < NPAGE ==> ref[p] == if p < i then 1 else 0
        modifies `ref
      {
        ref := ref[i := 1];
        i := i + 1;
      }
      while i < NPAGE
        invariant boot <= i <= NPAGE && |ref| == NPAGE
        invariant forall p :: 0 <= p < NPAGE ==> ref[p] == if p < boot then 1 else 0
        invariant |free| == i - boot && forall j :: 0 <= j < |free| ==> free[j] == i - 1 - j
        modifies `ref, `free
      {
        ref := ref[i := 0];
        free := [i] + free;
        i := i + 1;
      }
      InitInv(boot);
    }

    lemma InitInv(boot: nat)
      requires Shape(S()) && dirs == {} && loose == {} && boot <= NPAGE
      requires forall p :: 0 <= p < NPAGE ==> ref[p] == pins[p] == if p < boot then 1 else 0
      requires |free| == NPAGE - boot && forall i :: 0 <= i < |free| ==> free[i] == NPAGE - 1 - i
      ensures Valid()
    {
      assert Entries(S()) == map[];
      forall p: nat ensures Count(Entries(S()), p) == 0 { CountZero(Entries(S()), p); }
      forall p: nat | p < NPAGE ensures p in free <==> ref[p] == 0 {
        if p >= boot { assert free[NPAGE - 1 - p] == p; }
      }
    }

    /** The words of a table slot, as the pointers of pgdir_walk address them. */
    function SlotWord(slot: (nat, nat)): Word
      requires slot.0 < |mem| && slot.1 < |mem[slot.0]|
      reads this
    {
      mem[slot.0][slot.1]
    }

    method SetWord(slot: (nat, nat), w: Word)
      requires Shape(S()) && slot.0 < NPAGE && slot.1 < NWORD
      modifies `mem
      ensures S() == Write(old(S()), slot.0, slot.1, w)
    {
      mem := mem[slot.0 := mem[slot.0][slot.1 := w]];
    }

    method PageAlloc() returns (p: Option<nat>)
      requires Valid()
      modifies this
      ensures Valid()
      ensures match P.PageAlloc(old(S()))
              case None => p.None? && S() == old(S())
              case Some((n, r)) => p == Some(n) && S() == r
    {
      if free == [] {
        return None;
      }
      PageAllocInv(S());
      assert free[0] in free;
      p := Some(free[0]);
      free := free[1..];
      mem := mem[p.value := ZeroPage()];
      loose := loose + {p.value};
    }

    /** page_free: back on the list, unless something still refers to the page. */
    method PageFree(p: nat)
      requires Shape(S()) && p < NPAGE
      modifies `free
      ensures free == if ref[p] == 0 then [p] + old(free) else old(free)
    {
      if ref[p] > 0 {
        return;
      }
      free := [p] + free;
    }

    method PageDecref(p: nat)
      requires Shape(S()) && p < NPAGE && ref[p] > 0
      modifies `ref, `free
      ensures S() == Decref(old(S()), p)
    {
      ref := ref[p := ref[p] - 1];
      if ref[p] == 0 {
        PageFree(p);
      }
    }

    /** pgdir_walk: the slot of the entry for `k`. Without `create` a missing table gives no
        slot; with it, one is made or there is no memory. */
    method PgdirWalk(k: Key, create: bool) returns (ok: bool, slot: Option<(nat, nat)>)
      requires Valid() && k.d in dirs && k.x < UTOPX && k.t < NWORD
      modifies this
      ensures Valid()
      ensures !create ==> ok && S() == old(S()) && (slot.None? <==> !HasTable(S(), k.d, k.x))
      ensures create ==> match Walk(old(S()), k.d, k.x)
                         case None => !ok && S() == old(S()) && slot.None?
                         case Some(r) => ok && S() == r && slot.Some?
      ensures slot.Some? ==> HasTable(S(), k.d, k.x) && slot.value == (mem[k.d][k.x].pfn, k.t)
    {
      hide CleanAt, Clean, Count, Counted, Distinct, Bounded, FreeList, KeepsData, Entries;
      ghost var s := S();
      WalkInv(s, k.d, k.x);
      PdeZero(s, k.d, k.x);
      var table: nat := mem[k.d][k.x].pfn;
      if !mem[k.d][k.x].fl.v {
        if !create {
          return true, None;
        }
        var p := PageAlloc();
        if p.None? {
          return false, None;
        }
        table := p.value;
        SetWord((k.d, k.x), Word(table, V));
        ref := ref[table := ref[table] + 1];
        loose := loose - {table};
        assert S() == Walk(s, k.d, k.x).value;
      }
      return true, Some((table, k.t));
    }

    lemma PdeZero(s: State, d: nat, x: nat)
      requires Inv(s) && d in s.dirs && x < UTOPX
      ensures s.mem[d][x].fl.v <==> HasTable(s, d, x)
    {
      assert CleanAt(s, AtPde(d, x));
    }

    method PageLookup(k: Key) returns (page: Option<nat>, slot: (nat, nat))
      requires Valid() && k.d in dirs && k.x < UTOPX && k.t < NWORD
      modifies this
      ensures S() == old(S())
      ensures match P.Lookup(S(), k)
              case None => page.None?
              case Some(w) => page == Some(w.pfn) && slot == (mem[k.d][k.x].pfn, k.t) && slot.0 < NPAGE
    {
      var ok, pte := PgdirWalk(k, false);
      slot := (0, 0);
      if pte.None? {
        return None, slot;
      }
      if !SlotWord(pte.value).fl.v {
        return None, slot;
      }
      return Some(SlotWord(pte.value).pfn), pte.value;
    }

    method PageRemove(k: Key)
      requires Valid() && k.d in dirs && k.x < UTOPX && k.t < NWORD
      modifies this
      ensures Valid() && P.PageRemove.requires(old(S()), k) && S() == P.PageRemove(old(S()), k)
    {
      PageRemoveInv(S(), k);
      var page, slot := PageLookup(k);
      if page.None? {
        return;
      }
      ref := ref[page.value := ref[page.value] - 1];
      if ref[page.value] == 0 {
        PageFree(page.value);
      }
      SetWord(slot, ZERO);
    }

    method PageInsert(k: Key, p: Frame, perm: Word) returns (ok: bool)
      requires Valid() && k.d in dirs && k.x < UTOPX && k.t < NWORD && Mappable(S(), p) && p < NPAGE
      modifies this
      ensures (S(), ok) == W.PermInsert(old(S()), k, p, perm)
      ensures Valid() <==> !ok || W.Fits(p, perm)
    {
      hide CleanAt, Clean, Count, Counted, Distinct, Bounded, FreeList, KeepsData, Walk, Entries, Or;
      ghost var s := S();
      PageInsertAllOrNothing(s, k, p, perm.fl);
      W.WideInsert(s, k, p, perm);
      var w := W.Stored(p, perm);
      var o, slot := PgdirWalk(k, false);
      if slot.Some? && SlotWord(slot.value).fl.v {
        if SlotWord(slot.value).pfn != p {
          PageRemove(k);
        } else {
          SetWord(slot.value, w);
          return true;
        }
      }
      PageRemoveInv(s, k);
      assert S() == P.PageRemove(s, k);
      ok, slot := PgdirWalk(k, true);
      if !ok {
        return;
      }
      StoreCounted(slot.value, p, w);
    }

    /** The last two steps of page_insert: store the entry, count it. */
    method StoreCounted(slot: (nat, nat), p: nat, w: Word)
      requires Shape(S()) && slot.0 < NPAGE && slot.1 < NWORD && p < NPAGE
      modifies this
      ensures S() == Write(Claim(old(S()), p), slot.0, slot.1, w)
    {
      SetWord(slot, w);
      ref := ref[p := ref[p] + 1];
      loose := loose - {p};
    }

    // ---------- address spaces ----------

    /** env_setup_vm; None stands for the panic when no page is left. */
    method EnvSetupVm(boot: seq<Word>) returns (dir: Option<nat>)
      requires Valid() && |boot| == NWORD
      modifies this
      ensures Valid()
      ensures match SetupVm(old(S()), boot)
              case None => dir.None? && S() == old(S())
              case Some((p, r)) => dir == Some(p) && S() == r
    {
      hide CleanAt, Clean, Count, Counted, Distinct, Bounded, FreeList, KeepsData, Entries;
      ghost var s := S();
      SetupVmInv(s, boot);
      dir := PageAlloc();
      if dir.None? {
        return;
      }
      var p := dir.value;
      ref := ref[p := ref[p] + 1];
      loose := loose - {p};
      var page := mem[p];
      var i := 0;
      while i < UTOPX
        invariant 0 <= i <= UTOPX && |page| == NWORD && forall j :: 0 <= j < i ==> page[j] == ZERO
      {
        page := page[i := ZERO];
        i := i + 1;
      }
      while i < NWORD
        invariant UTOPX <= i <= NWORD && |page| == NWORD
        invariant forall j :: 0 <= j < i ==> page[j] == if j < UTOPX then ZERO else boot[j]
      {
        page := page[i := boot[i]];
        i := i + 1;
      }
      page := page[VPTX := Word(p, NOFLAGS)];
      page := page[UVPTX := Word(p, VR)];
      assert page == DirPage(boot, p);
      mem := mem[p := page];
      dirs := dirs + {p};
    }

    /** env_free's memory: every page below UTOP is unmapped, then each table is dropped, then
        the directory. What is left is exactly what other address spaces refer to. */
    method EnvFree(d: nat)
      requires Valid() && d in dirs
      modifies this
      ensures Valid() && Freed(old(S()), d, S())
    {
      hide CleanAt, Clean, Count, Counted, Distinct, Bounded, FreeList, KeepsData, Left, Without, Named, Entries, SlotsKept;
      ghost var e := Entries(S());
      var x := 0;
      InUserPart(S());
      LeftNone(e, d);
      D.SlotsSame(S(), S());
      while x < UTOPX
        invariant 0 <= x <= UTOPX
        invariant Valid() && dirs == old(dirs) && pins == old(pins) && loose == old(loose)
        invariant Entries(S()) == Left(e, d, x, 0) && Untouched(old(mem), S()) && SlotsKept(old(S()), S())
      {
        PdeZero(S(), d, x);
        if mem[d][x].fl.v {
          ghost var b := S();
          EmptyTable(d, x, e);
          ghost var s := S();
          D.SlotsTransitive(old(S()), b, s);
          NoneLeft(s, e, d, x);
          DropTableInv(s, d, x);
          UntouchedStep(s, DropTable(s, d, x));
          D.DropTableSlots(s, d, x);
          D.SlotsTransitive(old(S()), s, DropTable(s, d, x));
          LeftPde(e, d, x);
          var table: nat := mem[d][x].pfn;
          SetWord((d, x), ZERO);
          PageDecref(table);
        } else {
          NoTable(S(), e, d, x);
          LeftSkip(e, d, x);
        }
        x := x + 1;
      }
      NoTables(S(), e, d);
      DropDirInv(S(), d);
      ghost var last := S();
      LeftAll(e, d);
      PageDecref(d);
      dirs := dirs - {d};
      UntouchedLess(old(mem), last, S());
      D.SlotsSame(last, S());
      D.SlotsTransitive(old(S()), last, S());
    }

    /** The inner loop of env_free: page_remove on every valid entry of one table. */
    method EmptyTable(d: nat, x: nat, ghost e: map<Loc, Word>)
      requires Valid() && HasTable(S(), d, x) && Entries(S()) == Left(e, d, x, 0)
      modifies this
      ensures Valid() && dirs == old(dirs) && pins == old(pins) && loose == old(loose)
      ensures HasTable(S(), d, x) && Entries(S()) == Left(e, d, x, NWORD)
      ensures forall m :: Untouched(m, old(S())) ==> Untouched(m, S())
      ensures SlotsKept(old(S()), S())
    {
      hide CleanAt, Clean, Count, Counted, Distinct, Bounded, FreeList, KeepsData, Left, Entries, SlotsKept;
      D.SlotsSame(S(), S());
      var table: nat := mem[d][x].pfn;
      var t := 0;
      while t < NWORD
        invariant 0 <= t <= NWORD
        invariant Valid() && dirs == old(dirs) && pins == old(pins) && loose == old(loose)
        invariant HasTable(S(), d, x) && mem[d][x].pfn == table
        invariant Entries(S()) == Left(e, d, x, t)
        invariant forall m :: Untouched(m, old(S())) ==> Untouched(m, S())
        invariant SlotsKept(old(S()), S())
      {
        var k := Key(d, x, t);
        LeftPte(e, k);
        if mem[table][t].fl.v {
          PageRemoveInv(S(), k);
          assert AtPde(d, x) in Entries(S());
          UntouchedStep(S(), P.PageRemove(S(), k));
          D.RemoveSlots(S(), k);
          D.SlotsTransitive(old(S()), S(), P.PageRemove(S(), k));
          PageRemove(k);
          assert AtPde(d, x) in Entries(S());
        } else {
          assert !Named(S(), AtPte(k));
          assert Entries(S()) - {AtPte(k)} == Entries(S());
        }
        t := t + 1;
      }
    }

    lemma NoneLeft(s: State, e: map<Loc, Word>, d: nat, x: nat)
      requires Shape(s) && Entries(s) == Left(e, d, x, NWORD)
      ensures forall t: nat :: !Named(s, AtPte(Key(d, x, t)))
    {
      forall t: nat ensures !Named(s, AtPte(Key(d, x, t))) {
        assert AtPte(Key(d, x, t)) in Entries(s) ==> t < NWORD;
      }
    }

    lemma NoTable(s: State, e: map<Loc, Word>, d: nat, x: nat)
      requires Shape(s) && Entries(s) == Left(e, d, x, 0) && !HasTable(s, d, x)
      ensures AtPde(d, x) !in e && forall l :: l in e && l.AtPte? ==> (l.k.d, l.k.x) != (d, x)
    {
      assert AtPde(d, x) !in Entries(s);
      forall l | l in e && l.AtPte? ensures (l.k.d, l.k.x) != (d, x) {
        assert !Named(s, l) ==> l !in Entries(s);
      }
    }

    lemma NoTables(s: State, e: map<Loc, Word>, d: nat)
      requires Shape(s) && Entries(s) == Left(e, d, UTOPX, 0)
      ensures forall x: nat :: !HasTable(s, d, x)
    {
      forall x: nat ensures !HasTable(s, d, x) { assert AtPde(d, x) in Entries(s) ==> x < UTOPX; }
    }

    lemma InUserPart(s: State)
      requires Shape(s)
      ensures forall l :: l in Entries(s) && l.AtPte? ==> l.k.x < UTOPX && l.k.t < NWORD
      ensures forall l :: l in Entries(s) && l.AtPde? ==> l.px < UTOPX
    {}

    // ---------- system calls; `live` says whether envid2env found the environment ----------

    method SysMemAlloc(k: Key, live: bool, perm: nat) returns (c: M.Code)
      requires Valid() && M.Va(k) && (live <==> k.d in dirs) && perm < 0x1_0000_0000
      modifies this
      ensures (S(), c) == W.PermAlloc(old(S()), k, FromNumber(perm))
      ensures Valid() <==> !c.Ok? || W.Fits(old(free[0]), FromNumber(perm))
      ensures FromNumber(perm).pfn == 0 ==> Valid() && (S(), c) == M.MemAlloc(old(S()), k, FromNumber(perm).fl)
    {
      hide CleanAt, Clean, Count, Counted, Distinct, Bounded, FreeList, KeepsData, Named, Entries, W.PermInsert, FromNumber, Or;
      ghost var s := S();
      var w := FromNumber(perm);
      W.WideAlloc(s, k, w);
      W.NarrowFits(w);
      if k.x >= UTOPX {
        return M.Unspecified;
      }
      if w.fl.cow || !w.fl.v {
        return M.Inval;
      }
      if !live {
        return M.BadEnv;
      }
      var p := PageAlloc();
      if p.None? {
        return M.NoMem;
      }
      M.PinAllocated(s);
      ref := ref[p.value := ref[p.value] + 1];
      pins := pins[p.value := pins[p.value] + 1];
      loose := loose - {p.value};
      var ok := PageInsert(k, p.value, w);
      return if ok then M.Ok else M.NoMem;
    }

    method SysMemMap(src: Key, srcLive: bool, dst: Key, dstLive: bool, perm: nat) returns (c: M.Code)
      requires Valid() && M.Va(src) && M.Va(dst) && (srcLive <==> src.d in dirs) && (dstLive <==> dst.d in dirs)
      requires perm < 0x1_0000_0000
      modifies this
      ensures (S(), c) == W.PermMap(old(S()), src, dst, FromNumber(perm))
      ensures c.Ok? ==> src in M.Flat(old(S()))
      ensures Valid() <==> !c.Ok? || W.Fits(M.Flat(old(S()))[src].pfn, FromNumber(perm))
      ensures FromNumber(perm).pfn == 0 ==> Valid() && (S(), c) == M.MemMap(old(S()), src, dst, FromNumber(perm).fl)
    {
      hide CleanAt, Count, Distinct, FreeList, KeepsData, W.PermInsert, FromNumber, Or, M.Flat;
      ghost var s := S();
      var w := FromNumber(perm);
      W.WideMap(s, src, dst, w);
      W.NarrowFits(w);
      if src.x >= UTOPX || dst.x >= UTOPX {
        return M.Unspecified;
      }
      if !w.fl.v {
        return M.Inval;
      }
      if !srcLive || !dstLive {
        return M.BadEnv;
      }
      var page, slot := PageLookup(src);
      if page.None? {
        return M.Unspecified;
      }
      M.LookupMappable(S(), src);
      W.MappedInRange(S(), src);
      var ok := PageInsert(dst, page.value, w);
      return if ok then M.Ok else M.NoMem;
    }

    method SysMemUnmap(k: Key, live: bool) returns (c: M.Code)
      requires Valid() && M.Va(k) && (live <==> k.d in dirs)
      modifies this
      ensures Valid() && (S(), c) == M.MemUnmap(old(S()), k)
    {
      if k.x >= UTOPX {
        return M.Inval;
      }
      if !live {
        return M.Inval;
      }
      PageRemove(k);
      return M.Ok;
    }
  }
}
