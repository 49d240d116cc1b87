/** Physical pages and two-level page tables (mm/pmap.c). The tables live inside the very
    pages they manage, so one write to memory may change what every table means; `Entries`
    collects every live reference to a page and the invariant is stated on that map. */
module Pmap {
  import opened Wrappers
  import opened Mmu

  /** A user page of the address space whose directory is page `d`: directory slot and table
      slot of the virtual page number. */
  datatype Key = Key(d: nat, x: nat, t: nat)

  /** The places that may name a physical page: an environment's env_cr3, a user slot of a
      page directory, a slot of a page table. */
  datatype Loc = AtDir(dir: nat) | AtPde(pd: nat, px: nat) | AtPte(k: Key)

  /** `mem`, `ref` (pp_ref) and `free` (page_free_list) are the program's own. The rest is
      bookkeeping: `dirs`, the directories of live environments; `pins`, the references that
      pp_ref counts but no table holds (kernel pages, and the increments made before
      page_insert makes its own); `loose`, pages just allocated and not yet referenced. */
  datatype State = State(mem: seq<seq<Word>>, ref: seq<nat>, free: seq<nat>,
                         dirs: set<nat>, pins: seq<nat>, loose: set<nat>)

  predicate Shape(s: State) {
    && |s.mem| == NPAGE && |s.ref| == NPAGE && |s.pins| == NPAGE
    && (forall p :: 0 <= p < NPAGE ==> |s.mem[p]| == NWORD)
    && (forall d :: d in s.dirs ==> d < NPAGE)
    && (forall p :: p in s.free ==> p < NPAGE)
  }

  predicate HasTable(s: State, d: nat, x: nat)
    requires Shape(s)
  {
    d in s.dirs && x < UTOPX && s.mem[d][x].fl.v && s.mem[d][x].pfn < NPAGE
  }

  predicate Named(s: State, l: Loc)
    requires Shape(s)
  {
    match l
    case AtDir(d) => d in s.dirs
    case AtPde(d, x) => HasTable(s, d, x)
    case AtPte(k) => HasTable(s, k.d, k.x) && k.t < NWORD && s.mem[s.mem[k.d][k.x].pfn][k.t].fl.v
  }

  function At(s: State, l: Loc): Word
    requires Shape(s) && Named(s, l)
  {
    match l
    case AtDir(d) => Word(d, NOFLAGS)
    case AtPde(d, x) => s.mem[d][x]
    case AtPte(k) => s.mem[s.mem[k.d][k.x].pfn][k.t]
  }

  predicate InRange(dirs: set<nat>, l: Loc) {
    match l
    case AtDir(d) => d in dirs
    case AtPde(d, x) => d in dirs && x < UTOPX
    case AtPte(k) => k.d in dirs && k.x < UTOPX && k.t < NWORD
  }

  ghost function Locs(dirs: set<nat>): (ls: set<Loc>)
    ensures forall l :: InRange(dirs, l) ==> l in ls
  {
    (set d | d in dirs :: AtDir(d))
    + (set d, x: nat | d in dirs && x < UTOPX :: AtPde(d, x))
    + (set d, x: nat, t: nat | d in dirs && x < UTOPX && t < NWORD :: AtPte(Key(d, x, t)))
  }

  /** Every live reference to a physical page, with the word that makes it. */
  ghost function Entries(s: State): (m: map<Loc, Word>)
    requires Shape(s)
    ensures forall l :: l in m <==> Named(s, l)
    ensures forall l :: l in m ==> m[l] == At(s, l)
  {
    map l | l in Locs(s.dirs) && Named(s, l) :: At(s, l)
  }

  ghost function Count(m: map<Loc, Word>, p: nat): nat {
    |set l | l in m && m[l].pfn == p|
  }

  /** Two references name one page only if both are page-table entries: table pages and
      directories are owned by exactly one slot, and no user page is a table. */
  ghost predicate Distinct(m: map<Loc, Word>) {
    forall l, k :: l in m && k in m && l != k && m[l].pfn == m[k].pfn ==> l.AtPte? && k.AtPte?
  }

  ghost predicate Bounded(m: map<Loc, Word>) {
    forall l :: l in m ==> m[l].pfn < NPAGE
  }

  /** A slot is zero or valid, and the UVPT slot of a directory names the directory. */
  ghost predicate CleanAt(s: State, l: Loc)
    requires Shape(s)
  {
    InRange(s.dirs, l) ==>
      match l
      case AtDir(d) => s.mem[d][UVPTX] == Word(d, VR)
      case AtPde(d, x) => s.mem[d][x] == ZERO || HasTable(s, d, x)
      case AtPte(k) => HasTable(s, k.d, k.x) ==> s.mem[s.mem[k.d][k.x].pfn][k.t] == ZERO || Named(s, l)
  }

  ghost predicate Clean(s: State)
    requires Shape(s)
  {
    forall l :: CleanAt(s, l)
  }

  ghost predicate Counted(s: State)
    requires Shape(s)
  {
    forall p :: 0 <= p < NPAGE ==> s.ref[p] == Count(Entries(s), p) + s.pins[p]
  }

  /** The free list holds each unreferenced page once, and no other page. */
  ghost predicate FreeList(s: State)
    requires Shape(s)
  {
    && (forall i, j :: 0 <= i < j < |s.free| ==> s.free[i] != s.free[j])
    && (forall p: nat :: p < NPAGE ==> (p in s.free <==> s.ref[p] == 0 && p !in s.loose))
    && (forall p :: p in s.loose ==> p < NPAGE && s.ref[p] == 0)
  }

  ghost predicate Inv(s: State) {
    && Shape(s)
    && Distinct(Entries(s)) && Bounded(Entries(s))
    && Clean(s) && Counted(s) && FreeList(s)
  }

  lemma InvShape(s: State)
    requires Inv(s)
    ensures Shape(s) && |s.ref| == |s.pins| == NPAGE
  {}

  // ---------- the counting map ----------

  lemma CountPut(m: map<Loc, Word>, l: Loc, w: Word, p: nat)
    requires l !in m
    ensures Count(m[l := w], p) == Count(m, p) + (if w.pfn == p then 1 else 0)
  {
    var a := set k | k in m && m[k].pfn == p;
    var n := m[l := w];
    var b := set k | k in n && n[k].pfn == p;
    if w.pfn == p {
      assert b == a + {l};
    } else {
      assert b == a;
    }
  }

  lemma CountDrop(m: map<Loc, Word>, l: Loc, p: nat)
    requires l in m
    ensures Count(m - {l}, p) == Count(m, p) - (if m[l].pfn == p then 1 else 0)
  {
    var n := m - {l};
    assert n[l := m[l]] == m;
    CountPut(n, l, m[l], p);
  }

  lemma CountZero(m: map<Loc, Word>, p: nat)
    ensures Count(m, p) == 0 <==> forall l :: l in m ==> m[l].pfn != p
  {
    var a := set k | k in m && m[k].pfn == p;
    if Count(m, p) == 0 {
      assert a == {};
      forall l | l in m ensures m[l].pfn != p { assert l !in a; }
    } else {
      assert a != {};
      var l :| l in a;
    }
  }

  /** An unreferenced page, in particular a free one, is named nowhere. */
  lemma UnreferencedIsUnnamed(s: State, p: nat)
    requires Inv(s) && p < NPAGE && s.ref[p] == 0
    ensures s.pins[p] == 0 && forall l :: l in Entries(s) ==> Entries(s)[l].pfn != p
  {
    CountZero(Entries(s), p);
  }

  // ---------- how one write changes the references ----------

  function Write(s: State, p: nat, i: nat, w: Word): (r: State)
    requires Shape(s) && p < NPAGE && i < NWORD
    ensures Shape(r)
  {
    s.(mem := s.mem[p := s.mem[p][i := w]])
  }

  /** A write to a page that holds no directory and no table but perhaps `t` leaves every
      directory as it is, so the same slots have the same tables. */
  lemma WriteBelow(s: State, p: nat, i: nat, w: Word, l: Loc)
    requires Shape(s) && p < NPAGE && i < NWORD
    requires l.AtDir? || l.AtPde?
    requires forall d :: d in s.dirs ==> d != p
    ensures Named(Write(s, p, i, w), l) <==> Named(s, l)
    ensures Named(s, l) ==> At(Write(s, p, i, w), l) == At(s, l)
  {}

  lemma WritePteAt(s: State, k: Key, w: Word, l: Loc)
    requires Shape(s) && Distinct(Entries(s)) && HasTable(s, k.d, k.x) && k.t < NWORD
    requires forall d :: d in s.dirs ==> d != s.mem[k.d][k.x].pfn
    ensures var r := Write(s, s.mem[k.d][k.x].pfn, k.t, w);
            if l == AtPte(k) then (Named(r, l) <==> w.fl.v) && (w.fl.v ==> At(r, l) == w)
            else (Named(r, l) <==> Named(s, l)) && (Named(s, l) ==> At(r, l) == At(s, l))
    ensures CleanAt(s, l) && (w == ZERO || w.fl.v) ==> CleanAt(Write(s, s.mem[k.d][k.x].pfn, k.t, w), l)
  {
    var t := s.mem[k.d][k.x].pfn;
    if l.AtPte? {
      var j := l.k;
      WriteBelow(s, t, k.t, w, AtPde(j.d, j.x));
      if HasTable(s, j.d, j.x) && (j.d, j.x) != (k.d, k.x) {
        assert AtPde(j.d, j.x) in Entries(s) && AtPde(k.d, k.x) in Entries(s);
        assert s.mem[j.d][j.x].pfn != t;
      }
    } else {
      WriteBelow(s, t, k.t, w, l);
    }
  }

  lemma DirsApart(s: State, l: Loc, p: nat)
    requires Shape(s) && Distinct(Entries(s)) && l in Entries(s) && Entries(s)[l].pfn == p
    requires !l.AtDir?
    ensures forall d :: d in s.dirs ==> d != p
  {
    forall d | d in s.dirs ensures d != p { assert AtDir(d) in Entries(s); }
  }

  lemma WritePte(s: State, k: Key, w: Word)
    requires Shape(s) && Distinct(Entries(s)) && HasTable(s, k.d, k.x) && k.t < NWORD
    ensures var r := Write(s, s.mem[k.d][k.x].pfn, k.t, w);
            && Entries(r) == (if w.fl.v then Entries(s)[AtPte(k) := w] else Entries(s) - {AtPte(k)})
            && (Clean(s) && (w == ZERO || w.fl.v) ==> Clean(r))
  {
    hide CleanAt, Locs;
    var r := Write(s, s.mem[k.d][k.x].pfn, k.t, w);
    DirsApart(s, AtPde(k.d, k.x), s.mem[k.d][k.x].pfn);
    forall l
      ensures CleanAt(s, l) && (w == ZERO || w.fl.v) ==> CleanAt(r, l)
      ensures l == AtPte(k) ==> (Named(r, l) <==> w.fl.v) && (w.fl.v ==> At(r, l) == w)
      ensures l != AtPte(k) ==> (Named(r, l) <==> Named(s, l)) && (Named(s, l) ==> At(r, l) == At(s, l))
    {
      WritePteAt(s, k, w, l);
    }
  }

  lemma WriteData(s: State, p: nat, i: nat, w: Word)
    requires Shape(s) && p < NPAGE && i < NWORD
    requires forall l :: l in Entries(s) && Entries(s)[l].pfn == p ==> l.AtPte?
    ensures Entries(Write(s, p, i, w)) == Entries(s)
    ensures Clean(s) ==> Clean(Write(s, p, i, w))
  {
    var r := Write(s, p, i, w);
    forall d | d in s.dirs ensures d != p { assert AtDir(d) in Entries(s); }
    forall l
      ensures (Named(r, l) <==> Named(s, l)) && (Named(s, l) ==> At(r, l) == At(s, l))
      ensures CleanAt(s, l) ==> CleanAt(r, l)
    {
      if l.AtPte? {
        WriteBelow(s, p, i, w, AtPde(l.k.d, l.k.x));
        if HasTable(s, l.k.d, l.k.x) { assert AtPde(l.k.d, l.k.x) in Entries(s); }
      } else {
        WriteBelow(s, p, i, w, l);
      }
    }
  }

  lemma WriteTableAt(s: State, d: nat, x: nat, n: nat, l: Loc)
    requires Shape(s) && Distinct(Entries(s)) && d in s.dirs && x < UTOPX && !HasTable(s, d, x)
    requires n < NPAGE && s.mem[n] == ZeroPage() && n != d
    requires forall a :: a in s.dirs ==> a != n
    ensures var r := Write(s, d, x, Word(n, V));
            if l == AtPde(d, x) then Named(r, l) && At(r, l) == Word(n, V)
            else (Named(r, l) <==> Named(s, l)) && (Named(s, l) ==> At(r, l) == At(s, l))
    ensures CleanAt(s, l) ==> CleanAt(Write(s, d, x, Word(n, V)), l)
  {
    if l.AtPte? && HasTable(s, l.k.d, l.k.x) {
      assert AtPde(l.k.d, l.k.x) in Entries(s) && AtDir(d) in Entries(s);
      assert s.mem[l.k.d][l.k.x].pfn != d;
    }
  }

  /** A zeroed page `n` named nowhere becomes the table of an empty directory slot. */
  lemma WriteTable(s: State, d: nat, x: nat, n: nat)
    requires Shape(s) && Distinct(Entries(s)) && d in s.dirs && x < UTOPX && !HasTable(s, d, x)
    requires n < NPAGE && s.mem[n] == ZeroPage()
    requires forall l :: l in Entries(s) ==> Entries(s)[l].pfn != n
    ensures Entries(Write(s, d, x, Word(n, V))) == Entries(s)[AtPde(d, x) := Word(n, V)]
    ensures Clean(s) ==> Clean(Write(s, d, x, Word(n, V)))
  {
    var r := Write(s, d, x, Word(n, V));
    forall a | a in s.dirs ensures a != n { assert AtDir(a) in Entries(s); }
    forall l
      ensures CleanAt(s, l) ==> CleanAt(r, l)
      ensures l == AtPde(d, x) ==> Named(r, l) && At(r, l) == Word(n, V)
      ensures l != AtPde(d, x) ==> (Named(r, l) <==> Named(s, l)) && (Named(s, l) ==> At(r, l) == At(s, l))
    {
      WriteTableAt(s, d, x, n, l);
    }
  }

  // ---------- the operations ----------

  /** page_alloc: the first free page, cleared; its count stays zero. */
  function PageAlloc(s: State): (r: Option<(nat, State)>)
    requires Shape(s)
    ensures r.Some? ==> r.value.0 < NPAGE && Shape(r.value.1)
  {
    if s.free == [] then None
    else
      var p := s.free[0];
      assert p in s.free && forall q :: q in s.free[1..] ==> q in s.free;
      Some((p, s.(free := s.free[1..], mem := s.mem[p := ZeroPage()], loose := s.loose + {p})))
  }

  /** pp_ref++ by code that makes no entry for it. */
  function Pin(s: State, p: nat): State
    requires Shape(s) && p < NPAGE
  {
    s.(ref := s.ref[p := s.ref[p] + 1], pins := s.pins[p := s.pins[p] + 1], loose := s.loose - {p})
  }

  /** pp_ref++ by code that makes an entry for it. */
  function Claim(s: State, p: nat): State
    requires Shape(s) && p < NPAGE
  {
    s.(ref := s.ref[p := s.ref[p] + 1], loose := s.loose - {p})
  }

  /** page_decref: the count drops, and a page whose count reaches zero is freed. */
  function Decref(s: State, p: nat): State
    requires Shape(s) && p < NPAGE && s.ref[p] > 0
  {
    var r := s.(ref := s.ref[p := s.ref[p] - 1]);
    if r.ref[p] == 0 then r.(free := [p] + s.free) else r
  }

  function Lookup(s: State, k: Key): Option<Word>
    requires Shape(s)
  {
    if Named(s, AtPte(k)) then Some(At(s, AtPte(k))) else None
  }

  function PageRemove(s: State, k: Key): State
    requires Shape(s)
    requires Named(s, AtPte(k)) ==> At(s, AtPte(k)).pfn < NPAGE && s.ref[At(s, AtPte(k)).pfn] > 0
  {
    if !Named(s, AtPte(k)) then s
    else Write(Decref(s, At(s, AtPte(k)).pfn), s.mem[k.d][k.x].pfn, k.t, ZERO)
  }

  /** pgdir_walk with create set: the table for slot (d, x), made when there is none. */
  function Walk(s: State, d: nat, x: nat): Option<State>
    requires Shape(s) && d in s.dirs && x < UTOPX
  {
    if HasTable(s, d, x) then Some(s)
    else match PageAlloc(s)
      case None => None
      case Some((n, r)) =>
        Some(Write(Claim(r, n), d, x, Word(n, V)))
  }

  /** Clearing a page named nowhere changes no table. */
  lemma ClearPage(s: State, r: State, p: nat)
    requires Shape(s) && Shape(r) && p < NPAGE && r.dirs == s.dirs
    requires r.mem == s.mem[p := ZeroPage()]
    requires forall l :: l in Entries(s) ==> Entries(s)[l].pfn != p
    ensures Entries(r) == Entries(s)
    ensures Clean(s) ==> Clean(r)
  {
    forall d | d in s.dirs ensures r.mem[d] == s.mem[d] { assert AtDir(d) in Entries(s); }
    forall d: nat, x: nat | HasTable(s, d, x) ensures r.mem[s.mem[d][x].pfn] == s.mem[s.mem[d][x].pfn] {
      assert AtPde(d, x) in Entries(s);
    }
    assert forall d: nat, x: nat :: HasTable(r, d, x) <==> HasTable(s, d, x);
    forall l
      ensures (Named(r, l) <==> Named(s, l)) && (Named(s, l) ==> At(r, l) == At(s, l))
      ensures CleanAt(s, l) ==> CleanAt(r, l)
    {}
  }

  lemma DropFirst(s: seq<nat>)
    requires s != [] && forall i, j :: 0 <= i < j < |s| ==> s[i] != s[j]
    ensures forall q :: q in s[1..] <==> q in s && q != s[0]
  {
    forall q | q in s && q != s[0] ensures q in s[1..] {
      var i :| 0 <= i < |s| && s[i] == q;
      assert s[1..][i - 1] == q;
    }
  }

  lemma PageAllocInv(s: State)
    requires Inv(s) && s.free != []
    ensures var (p, r) := PageAlloc(s).value;
            Inv(r) && Entries(r) == Entries(s) && r.ref[p] == 0 && p in r.loose && p !in r.free
  {
    var (p, r) := PageAlloc(s).value;
    assert p in s.free;
    UnreferencedIsUnnamed(s, p);
    ClearPage(s, r, p);
    DropFirst(s.free);
  }

  // ---------- parts of the invariant ----------

  lemma DistinctPut(m: map<Loc, Word>, l: Loc, w: Word)
    requires Distinct(m)
    requires forall k :: k in m && k != l && m[k].pfn == w.pfn ==> l.AtPte? && k.AtPte?
    ensures Distinct(m[l := w])
  {}

  lemma CountedPut(s: State, r: State, l: Loc, w: Word)
    requires Shape(s) && Shape(r) && Counted(s)
    requires l !in Entries(s) && Entries(r) == Entries(s)[l := w] && w.pfn < NPAGE
    requires r.ref == s.ref[w.pfn := s.ref[w.pfn] + 1] && r.pins == s.pins
    ensures Counted(r)
  {
    forall p | 0 <= p < NPAGE ensures r.ref[p] == Count(Entries(r), p) + r.pins[p] {
      CountPut(Entries(s), l, w, p);
    }
  }

  lemma CountedDrop(s: State, r: State, l: Loc)
    requires Shape(s) && Shape(r) && Counted(s)
    requires l in Entries(s) && Entries(r) == Entries(s) - {l} && Entries(s)[l].pfn < NPAGE
    requires var p := Entries(s)[l].pfn; s.ref[p] > 0 && r.ref == s.ref[p := s.ref[p] - 1] && r.pins == s.pins
    ensures Counted(r)
  {
    forall p | 0 <= p < NPAGE ensures r.ref[p] == Count(Entries(r), p) + r.pins[p] {
      CountDrop(Entries(s), l, p);
    }
  }

  lemma NamedIsReferenced(s: State, l: Loc)
    requires Inv(s) && l in Entries(s)
    ensures s.ref[Entries(s)[l].pfn] > 0 && Entries(s)[l].pfn !in s.free
  {
    CountZero(Entries(s), Entries(s)[l].pfn);
  }

  lemma FreeListClaim(s: State, p: nat)
    requires Shape(s) && FreeList(s) && p < NPAGE && p !in s.free
    ensures FreeList(Claim(s, p))
  {}

  lemma FreeListDecref(s: State, p: nat)
    requires Shape(s) && FreeList(s) && p < NPAGE && s.ref[p] > 0
    ensures FreeList(Decref(s, p))
  {}

  // ---------- pgdir_walk ----------

  /** A page the caller may map: not free, and not serving as a table or directory. */
  ghost predicate Mappable(s: State, p: nat)
    requires Shape(s)
  {
    p < NPAGE && p !in s.free && forall l :: l in Entries(s) && Entries(s)[l].pfn == p ==> l.AtPte?
  }

  /** No page that holds user data changes. */
  ghost predicate KeepsData(s: State, r: State)
    requires Shape(s) && Shape(r)
  {
    forall q: nat :: Mappable(s, q) ==> r.mem[q] == s.mem[q]
  }

  /** No slot above the user's part changes in a directory that stays. */
  ghost predicate SlotsKept(s: State, r: State)
    requires Shape(s) && Shape(r)
  {
    forall d, i :: d in s.dirs && d in r.dirs && UTOPX <= i < NWORD ==> r.mem[d][i] == s.mem[d][i]
  }

  lemma OwnedIsNotData(s: State, l: Loc, q: nat)
    requires Shape(s) && l in Entries(s) && !l.AtPte? && Mappable(s, q)
    ensures Entries(s)[l].pfn != q
  {}

  lemma WalkMakesTable(s: State, d: nat, x: nat)
    requires Inv(s) && d in s.dirs && x < UTOPX && !HasTable(s, d, x) && s.free != []
    ensures var r := Walk(s, d, x).value;
            && Inv(r) && HasTable(r, d, x)
            && Entries(r) == Entries(s)[AtPde(d, x) := Word(s.free[0], V)]
            && r.loose == s.loose
  {
    PageAllocInv(s);
    var (n, a) := PageAlloc(s).value;
    UnreferencedIsUnnamed(a, n);
    var c := Claim(a, n);
    assert Entries(c) == Entries(a);
    assert forall l :: CleanAt(a, l) ==> CleanAt(c, l);
    WriteTable(c, d, x, n);
    var r := Write(c, d, x, Word(n, V));
    DistinctPut(Entries(a), AtPde(d, x), Word(n, V));
    CountedPut(a, r, AtPde(d, x), Word(n, V));
    FreeListClaim(a, n);
    assert n !in s.loose by { assert n in s.free; }
  }

  lemma WalkInv(s: State, d: nat, x: nat)
    requires Inv(s) && d in s.dirs && x < UTOPX
    ensures Walk(s, d, x).None? <==> !HasTable(s, d, x) && s.free == []
    ensures Walk(s, d, x).Some? ==>
              var r := Walk(s, d, x).value;
              && Inv(r) && HasTable(r, d, x) && r.dirs == s.dirs && r.pins == s.pins && r.loose == s.loose
              && KeepsData(s, r)
              && Entries(r) == if HasTable(s, d, x) then Entries(s)
                               else Entries(s)[AtPde(d, x) := Word(s.free[0], V)]
  {
    if !HasTable(s, d, x) && s.free != [] {
      WalkMakesTable(s, d, x);
      var r := Walk(s, d, x).value;
      var e := Entries(s);
      TableMakeKeeps(s, r, d);
    }
  }

  lemma TableMakeKeeps(s: State, r: State, d: nat)
    requires Shape(s) && Shape(r) && d in s.dirs && s.free != []
    requires forall p :: 0 <= p < NPAGE && p != d && p != s.free[0] ==> r.mem[p] == s.mem[p]
    ensures KeepsData(s, r)
  {
    forall q: nat | Mappable(s, q) ensures r.mem[q] == s.mem[q] {
      OwnedIsNotData(s, AtDir(d), q);
      assert s.free[0] in s.free;
    }
  }

  // ---------- page_remove and page_insert ----------

  /** Counts and the free list play no part in what the tables say. */
  lemma SameTables(s: State, r: State)
    requires Shape(s) && Shape(r) && r.mem == s.mem && r.dirs == s.dirs
    ensures Entries(r) == Entries(s) && (Clean(s) ==> Clean(r))
    ensures forall d: nat, x: nat :: HasTable(r, d, x) <==> HasTable(s, d, x)
  {
    assert forall l :: CleanAt(s, l) ==> CleanAt(r, l);
  }

  lemma HasTableIff(s: State, r: State, d: nat, x: nat)
    requires Shape(s) && Shape(r) && (AtPde(d, x) in Entries(r) <==> AtPde(d, x) in Entries(s))
    ensures HasTable(r, d, x) <==> HasTable(s, d, x)
  {
    assert Named(r, AtPde(d, x)) <==> Named(s, AtPde(d, x));
  }

  lemma TableWriteKeeps(s: State, r: State, d: nat, x: nat)
    requires Shape(s) && Shape(r) && HasTable(s, d, x)
    requires forall p :: 0 <= p < NPAGE && p != s.mem[d][x].pfn ==> r.mem[p] == s.mem[p]
    ensures KeepsData(s, r)
  {
    forall q: nat | Mappable(s, q) ensures r.mem[q] == s.mem[q] { OwnedIsNotData(s, AtPde(d, x), q); }
  }

  /** page_remove deletes exactly one entry of the map of references. */
  lemma PageRemoveInv(s: State, k: Key)
    requires Inv(s)
    ensures Named(s, AtPte(k)) ==> At(s, AtPte(k)).pfn < NPAGE && s.ref[At(s, AtPte(k)).pfn] > 0
    ensures var r := PageRemove(s, k);
            && Inv(r) && r.dirs == s.dirs && r.pins == s.pins && r.loose == s.loose
            && Entries(r) == Entries(s) - {AtPte(k)}
            && KeepsData(s, r)
            && (forall d: nat, x: nat :: HasTable(r, d, x) <==> HasTable(s, d, x))
  {
    hide CleanAt, FreeList, Count, Distinct;
    if Named(s, AtPte(k)) {
      assert AtPte(k) in Entries(s);
      NamedIsReferenced(s, AtPte(k));
      var p := At(s, AtPte(k)).pfn;
      var c := Decref(s, p);
      SameTables(s, c);
      WritePte(c, k, ZERO);
      var r := Write(c, s.mem[k.d][k.x].pfn, k.t, ZERO);
      FreeListDecref(s, p);
      FreeListSame(c, r);
      CountedDrop(s, r, AtPte(k));
      DistinctDrop(Entries(s), AtPte(k));
      forall d: nat, x: nat ensures HasTable(r, d, x) <==> HasTable(s, d, x) { HasTableIff(s, r, d, x); }
      TableWriteKeeps(s, r, k.d, k.x);
    } else {
      assert Entries(s) == Entries(s) - {AtPte(k)};
    }
  }

  lemma DistinctDrop(m: map<Loc, Word>, l: Loc)
    requires Distinct(m)
    ensures Distinct(m - {l})
  {}

  lemma FreeListSame(s: State, r: State)
    requires Shape(s) && Shape(r) && FreeList(s) && r.ref == s.ref && r.free == s.free && r.loose == s.loose
    ensures FreeList(r)
  {}

  /** page_insert; the flag is false for -E_NO_MEM. */
  function PageInsert(s: State, k: Key, p: nat, fl: Flags): (State, bool)
    requires Inv(s) && k.d in s.dirs && k.x < UTOPX && k.t < NWORD && p < NPAGE
  {
    Insert(s, k, p, Word(p, fl.(v := true)))
  }

  /** page_insert, whatever word it stores. */
  function Insert(s: State, k: Key, p: nat, w: Word): (State, bool)
    requires Inv(s) && k.d in s.dirs && k.x < UTOPX && k.t < NWORD && p < NPAGE
  {
    if Named(s, AtPte(k)) && At(s, AtPte(k)).pfn == p then
      (Write(s, s.mem[k.d][k.x].pfn, k.t, w), true)
    else
      PageRemoveInv(s, k);
      var a := PageRemove(s, k);
      WalkInv(a, k.d, k.x);
      match Walk(a, k.d, k.x)
      case None => (a, false)
      case Some(b) => (Write(Claim(b, p), b.mem[k.d][k.x].pfn, k.t, w), true)
  }

  /** page_insert is all or nothing: it fails only when the slot has no table and no page is
      free, and then it has changed nothing. */
  lemma PageInsertAllOrNothing(s: State, k: Key, p: nat, fl: Flags)
    requires Inv(s) && k.d in s.dirs && k.x < UTOPX && k.t < NWORD && p < NPAGE
    ensures !PageInsert(s, k, p, fl).1 <==> !HasTable(s, k.d, k.x) && s.free == []
    ensures !PageInsert(s, k, p, fl).1 ==> PageInsert(s, k, p, fl).0 == s
  {
    hide CleanAt, Count, Distinct;
    PageRemoveInv(s, k);
    WalkInv(PageRemove(s, k), k.d, k.x);
  }

  /** Storing the entry after the walk. */
  lemma StoreEntry(s: State, k: Key, p: nat, fl: Flags)
    requires Inv(s) && HasTable(s, k.d, k.x) && k.t < NWORD && !Named(s, AtPte(k)) && Mappable(s, p)
    ensures var r := Write(Claim(s, p), s.mem[k.d][k.x].pfn, k.t, Word(p, fl.(v := true)));
            Inv(r) && Entries(r) == Entries(s)[AtPte(k) := Word(p, fl.(v := true))]
  {
    hide CleanAt, FreeList, Count, Distinct;
    var c := Claim(s, p);
    var w := Word(p, fl.(v := true));
    SameTables(s, c);
    WritePte(c, k, w);
    var r := Write(c, s.mem[k.d][k.x].pfn, k.t, w);
    DistinctPut(Entries(s), AtPte(k), w);
    CountedPut(s, r, AtPte(k), w);
    FreeListClaim(s, p);
    FreeListSame(c, r);
  }

  lemma CountedSame(s: State, r: State, l: Loc, w: Word)
    requires Shape(s) && Shape(r) && Counted(s) && r.ref == s.ref && r.pins == s.pins
    requires l in Entries(s) && Entries(s)[l].pfn == w.pfn && Entries(r) == Entries(s)[l := w]
    ensures Counted(r)
  {
    var e := Entries(s);
    forall p: nat ensures Count(Entries(r), p) == Count(e, p) {
      var m := e - {l};
      assert m[l := w] == Entries(r);
      CountDrop(e, l, p);
      CountPut(m, l, w, p);
    }
  }

  lemma RestoreEntry(s: State, k: Key, fl: Flags)
    requires Inv(s) && Named(s, AtPte(k))
    ensures var w := Word(At(s, AtPte(k)).pfn, fl.(v := true));
            var r := Write(s, s.mem[k.d][k.x].pfn, k.t, w);
            Inv(r) && Entries(r) == Entries(s)[AtPte(k) := w]
  {
    hide CleanAt, FreeList, Count, Distinct;
    var w := Word(At(s, AtPte(k)).pfn, fl.(v := true));
    WritePte(s, k, w);
    var r := Write(s, s.mem[k.d][k.x].pfn, k.t, w);
    assert AtPte(k) in Entries(s);
    CountedSame(s, r, AtPte(k), w);
    DistinctRename(Entries(s), AtPte(k), w);
    FreeListSame(s, r);
  }

  lemma DistinctRename(m: map<Loc, Word>, l: Loc, w: Word)
    requires Distinct(m) && l in m && m[l].pfn == w.pfn
    ensures Distinct(m[l := w])
  {}

  /** After the old entry is gone the page can still be mapped, and the walk leaves it so. */
  lemma StillMappable(s: State, k: Key, p: nat)
    requires Inv(s) && k.d in s.dirs && k.x < UTOPX && k.t < NWORD && Mappable(s, p)
    requires !(Named(s, AtPte(k)) && At(s, AtPte(k)).pfn == p)
    ensures PageRemove.requires(s, k) && Inv(PageRemove(s, k)) && k.d in PageRemove(s, k).dirs
    ensures var b := Walk(PageRemove(s, k), k.d, k.x); b.Some? ==> Mappable(b.value, p)
  {
    hide CleanAt, Count, Distinct, Named;
    PageRemoveInv(s, k);
    var a := PageRemove(s, k);
    assert Mappable(a, p);
    WalkInv(a, k.d, k.x);
    if !HasTable(a, k.d, k.x) && a.free != [] {
      assert a.free[0] in a.free;
      assert p !in Walk(a, k.d, k.x).value.free by { DropFirst(a.free); }
    }
  }

  /** page_insert of another page: remove, walk, store. */
  lemma InsertIs(s: State, k: Key, p: nat, fl: Flags)
    requires Inv(s) && k.d in s.dirs && k.x < UTOPX && k.t < NWORD && Mappable(s, p)
    requires PageInsert(s, k, p, fl).1 && !(Named(s, AtPte(k)) && At(s, AtPte(k)).pfn == p)
    ensures p < NPAGE && PageRemove.requires(s, k)
    ensures var a := PageRemove(s, k);
            && Inv(a) && k.d in a.dirs && (!HasTable(s, k.d, k.x) ==> a == s)
            && var b := Walk(a, k.d, k.x);
               b.Some? && Inv(b.value) && HasTable(b.value, k.d, k.x) && !Named(b.value, AtPte(k))
               && PageInsert(s, k, p, fl).0
                  == Write(Claim(b.value, p), b.value.mem[k.d][k.x].pfn, k.t, Word(p, fl.(v := true)))
  {
    PageRemoveInv(s, k);
    var a := PageRemove(s, k);
    WalkInv(a, k.d, k.x);
    assert AtPte(k) !in Entries(Walk(a, k.d, k.x).value);
    hide Clean, Counted, Distinct, Bounded, FreeList, KeepsData;
  }

  lemma TableBounded(s: State, d: nat, x: nat)
    requires Shape(s) && HasTable(s, d, x)
    ensures d < |s.mem| && x < |s.mem[d]| && s.mem[d][x].pfn < NPAGE
  {}

  lemma StoreElse(s: State, p: nat, q: nat, i: nat, w: Word)
    requires Shape(s) && p < NPAGE && q < NPAGE && i < NWORD
    ensures var r := Write(Claim(s, p), q, i, w); r.dirs == s.dirs && r.pins == s.pins && r.loose == s.loose - {p}
  {}

  lemma PageInsertFresh(s: State, k: Key, p: nat, fl: Flags)
    requires Inv(s) && k.d in s.dirs && k.x < UTOPX && k.t < NWORD && Mappable(s, p)
    requires PageInsert(s, k, p, fl).1 && !(Named(s, AtPte(k)) && At(s, AtPte(k)).pfn == p)
    ensures var r := PageInsert(s, k, p, fl).0;
            && Inv(r) && r.dirs == s.dirs && r.pins == s.pins && r.loose == s.loose - {p}
            && Entries(r) == (if HasTable(s, k.d, k.x) then Entries(s)
                              else Entries(s)[AtPde(k.d, k.x) := Word(s.free[0], V)])
                             [AtPte(k) := Word(p, fl.(v := true))]
  {
    hide Inv, Write, Claim, Shape, PageInsert, PageRemove, Walk, Entries, HasTable, Named, At, Mappable, KeepsData;
    InvShape(s);
    InsertIs(s, k, p, fl);
    StillMappable(s, k, p);
    PageRemoveInv(s, k);
    var a := PageRemove(s, k);
    InvShape(a);
    WalkInv(a, k.d, k.x);
    var b := Walk(a, k.d, k.x).value;
    InvShape(b);
    TableBounded(b, k.d, k.x);
    StoreEntry(b, k, p, fl);
    StoreElse(b, p, b.mem[k.d][k.x].pfn, k.t, Word(p, fl.(v := true)));
  }

  /** page_insert sets exactly one entry, and adds at most the one table the entry needs. */
  lemma PageInsertInv(s: State, k: Key, p: nat, fl: Flags)
    requires Inv(s) && k.d in s.dirs && k.x < UTOPX && k.t < NWORD && Mappable(s, p)
    requires PageInsert(s, k, p, fl).1
    ensures var r := PageInsert(s, k, p, fl).0;
            && Inv(r) && r.dirs == s.dirs && r.pins == s.pins && r.loose == s.loose - {p}
            && Entries(r) == (if HasTable(s, k.d, k.x) then Entries(s)
                              else Entries(s)[AtPde(k.d, k.x) := Word(s.free[0], V)])
                             [AtPte(k) := Word(p, fl.(v := true))]
            && KeepsData(s, r)
  {
    hide CleanAt, Count, Distinct, FreeList, KeepsData;
    InsertKeeps(s, k, p, fl);
    if Named(s, AtPte(k)) && At(s, AtPte(k)).pfn == p {
      RestoreEntry(s, k, fl);
      NamedIsReferenced(s, AtPte(k));
      LooseUnreferenced(s, p);
    } else {
      PageInsertFresh(s, k, p, fl);
    }
  }

  lemma LooseUnreferenced(s: State, p: nat)
    requires Inv(s) && p < NPAGE && s.ref[p] > 0
    ensures p !in s.loose
  {}

  lemma InsertKeeps(s: State, k: Key, p: nat, fl: Flags)
    requires Inv(s) && k.d in s.dirs && k.x < UTOPX && k.t < NWORD && p < NPAGE
    requires PageInsert(s, k, p, fl).1
    ensures KeepsData(s, PageInsert(s, k, p, fl).0)
  {
    hide CleanAt, Count, Distinct, FreeList;
    var r := PageInsert(s, k, p, fl).0;
    PageRemoveInv(s, k);
    if HasTable(s, k.d, k.x) {
      TableWriteKeeps(s, r, k.d, k.x);
    } else {
      assert !Named(s, AtPte(k)) && PageRemove(s, k) == s;
      WalkInv(s, k.d, k.x);
      var b := Walk(s, k.d, k.x).value;
      assert b.mem[k.d][k.x].pfn == s.free[0];
      TableMakeKeeps(s, r, k.d);
    }
  }
}
