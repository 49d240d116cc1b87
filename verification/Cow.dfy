/** Copy-on-write fork (user/fork.c) as a state machine. The environments run interleaved;
    one step is one memory access, one trap or one system call, so fork and the fault handler
    are themselves preempted between any two of their calls. */
module Cow {
  import opened Mmu
  import opened Pmap

  const TEMPX: nat := 320   // PDX(0x50000000), the page pgfault copies through
  const XSTKX: nat := 508   // the page below UXSTACKTOP
  const XSTKT: nat := 1023

  const VRCOW := VR.(cow := true)
  const VRLIB := VR.(lib := true)

  /** Where a parent stands in fork: between pages, or between the two calls of duppage, with
      the page mapped in the child but its own mapping still plainly writable. */
  datatype Fork = Forking(child: nat) | Half(child: nat, k: Key)

  /** Where an environment stands in pgfault: `done` words copied, or the copy already mapped
      over the faulting page `k` and the temporary mapping still there. */
  datatype Fault = Copying(k: Key, done: nat) | Remapped(k: Key)

  /** `pt` is the flat map of the page tables, `data` the contents of pages, `embryo` the
      children that fork has not yet made runnable. `hidden` are the mappings no program can
      look through: the temporary page of a running fault handler, and a child's copy of the
      page its parent is half way through duplicating. */
  datatype Vm = Vm(pt: map<Key, Word>, data: map<nat, seq<Word>>, fork: map<nat, Fork>,
                   fault: map<nat, Fault>, embryo: set<nat>, hidden: set<Key>)

  function Temp(e: nat): Key { Key(e, TEMPX, 0) }

  function Twin(c: nat, k: Key): Key { Key(c, k.x, k.t) }

  predicate Writable(w: Word) { w.fl.r && !w.fl.cow }

  datatype Act =
    | Store(k: Key, off: nat, w: Word)
    | Alloc(k: Key, fl: Flags, p: nat)   // sys_mem_alloc in one's own space
    | Unmap(k: Key)
    | Pageout(k: Key, p: nat)            // touching an unmapped page
    | Trap(k: Key, p: nat)               // storing to a copy-on-write page: up to the first call of pgfault
    | Copy(e: nat)                       // one word of user_bcopy
    | Remap(e: nat)
    | Return(e: nat)                     // pgfault's last call
    | Spawn(e: nat, c: nat)              // sys_env_alloc
    | Dup(k: Key)                        // duppage's call for the child
    | Mark(k: Key)                       // duppage's call for the parent
    | Stack(e: nat, p: nat)              // the child's exception stack
    | Release(e: nat)                    // the child becomes runnable
    | Exit(e: nat)

  ghost predicate Fresh(v: Vm, p: nat) {
    p < NPAGE && forall k :: k in v.pt ==> v.pt[k].pfn != p
  }

  /** Neither forking nor handling a fault, and able to run. */
  predicate Idle(v: Vm, e: nat) {
    e !in v.fork && e !in v.fault && e !in v.embryo
  }

  ghost predicate Can(v: Vm, a: Act) {
    match a
    case Store(k, off, _) =>
      && k in v.pt && Writable(v.pt[k]) && off < NWORD && k.d !in v.embryo
      && (k.d in v.fault ==> k != Temp(k.d) && k != v.fault[k.d].k)
    case Alloc(k, fl, p) => Idle(v, k.d) && Fresh(v, p) && fl.v && !fl.cow
    case Unmap(k) => Idle(v, k.d)
    case Pageout(k, p) => k !in v.pt && k.d !in v.embryo && Fresh(v, p) && !(k.x == 0 && k.t < 16)
    case Trap(k, p) => k in v.pt && v.pt[k].fl.cow && k.d !in v.embryo && k.d !in v.fault && Fresh(v, p)
    case Copy(e) => e in v.fault && v.fault[e].Copying? && v.fault[e].done < NWORD
                    && v.fault[e].k in v.pt && Temp(e) in v.pt
                    && v.pt[v.fault[e].k].pfn in v.data && v.pt[Temp(e)].pfn in v.data
                    && |v.data[v.pt[v.fault[e].k].pfn]| == NWORD && |v.data[v.pt[Temp(e)].pfn]| == NWORD
    case Remap(e) => e in v.fault && v.fault[e].Copying? && v.fault[e].done == NWORD && Temp(e) in v.pt
    case Return(e) => e in v.fault && v.fault[e].Remapped?
    case Spawn(e, c) => Idle(v, e) && Idle(v, c) && c != e && (forall k :: k in v.pt ==> k.d != c)
    case Dup(k) => k in v.pt && k.d in v.fork && v.fork[k.d].Forking? && k.d !in v.fault
                   && !(k.x == XSTKX && k.t == XSTKT)
    case Mark(k) => k in v.pt && k.d in v.fork && (v.fork[k.d].Half? ==> v.fork[k.d].k == k)
                    && k.d !in v.fault && (v.pt[k].fl.r || v.pt[k].fl.cow)
    case Stack(e, p) => e in v.fork && v.fork[e].Forking? && e !in v.fault && Fresh(v, p)
    case Release(e) => e in v.fork && v.fork[e].Forking? && e !in v.fault
    case Exit(e) => e !in v.embryo
  }

  /** The permission duppage gives both mappings of a page that is writable or copy-on-write. */
  function DupFlags(fl: Flags): Flags {
    if fl.lib then VRLIB else VRCOW
  }

  function Zeroed(v: Vm, k: Key, fl: Flags, p: nat): Vm
    requires p < NPAGE
  {
    v.(pt := v.pt[k := Word(p, fl)], data := v.data[p := ZeroPage()])
  }

  /** Ends the half-way state of `e`, if it is in one on its own page `k`. */
  function Settle(v: Vm, e: nat, k: Key): Vm {
    if e in v.fork && v.fork[e].Half? && v.fork[e].k == k then
      v.(fork := v.fork[e := Forking(v.fork[e].child)], hidden := v.hidden - {Twin(v.fork[e].child, k)})
    else v
  }

  function Next(v: Vm, a: Act): Vm
    requires Can(v, a) && (a.Store? ==> v.pt[a.k].pfn in v.data && |v.data[v.pt[a.k].pfn]| == NWORD)
  {
    match a
    case Store(k, off, w) =>
      var p := v.pt[k].pfn;
      v.(data := v.data[p := v.data[p][off := w]])
    case Alloc(k, fl, p) => Zeroed(v, k, fl, p)
    case Unmap(k) => v.(pt := v.pt - {k})
    case Pageout(k, p) => Zeroed(v, k, VR, p)
    case Trap(k, p) =>
      var e := k.d;
      var u := Zeroed(Settle(v, e, Temp(e)), Temp(e), v.pt[k].fl.(cow := false), p);
      u.(fault := v.fault[e := Copying(k, 0)], hidden := u.hidden + {Temp(e)})
    case Copy(e) =>
      var Copying(k, i) := v.fault[e];
      var p := v.pt[Temp(e)].pfn;
      v.(data := v.data[p := v.data[p][i := v.data[v.pt[k].pfn][i]]], fault := v.fault[e := Copying(k, i + 1)])
    case Remap(e) =>
      v.(pt := v.pt[v.fault[e].k := v.pt[Temp(e)]], fault := v.fault[e := Remapped(v.fault[e].k)])
    case Return(e) => v.(pt := v.pt - {Temp(e)}, fault := v.fault - {e}, hidden := v.hidden - {Temp(e)})
    case Spawn(e, c) => v.(fork := v.fork[e := Forking(c)], embryo := v.embryo + {c})
    case Dup(k) =>
      var c := v.fork[k.d].child;
      var w := v.pt[k];
      if !w.fl.r && !w.fl.cow then v.(pt := v.pt[Twin(c, k) := w])
      else if w.fl.lib || w.fl.cow then v.(pt := v.pt[Twin(c, k) := Word(w.pfn, DupFlags(w.fl))])
      else v.(pt := v.pt[Twin(c, k) := Word(w.pfn, DupFlags(w.fl))],
              fork := v.fork[k.d := Half(c, k)], hidden := v.hidden + {Twin(c, k)})
    case Mark(k) =>
      var u := Settle(v, k.d, k);
      u.(pt := v.pt[k := Word(v.pt[k].pfn, DupFlags(v.pt[k].fl))])
    case Stack(e, p) => Zeroed(v, Key(v.fork[e].child, XSTKX, XSTKT), VR, p)
    case Release(e) => v.(fork := v.fork - {e}, embryo := v.embryo - {v.fork[e].child})
    case Exit(e) =>
      var u := if e in v.fork && v.fork[e].Half? then Settle(v, e, v.fork[e].k) else v;
      u.(pt := map k | k in v.pt && k.d != e :: v.pt[k], fork := u.fork - {e}, fault := v.fault - {e},
         hidden := set h | h in u.hidden && h.d != e)
  }

  // ---------- the invariant ----------

  ghost predicate Sane(v: Vm) {
    forall k :: k in v.pt ==> EntryOk(v, k)
  }

  predicate EntryOk(v: Vm, k: Key)
    requires k in v.pt
  {
    var w := v.pt[k];
    w.fl.v && (w.fl.cow ==> w.fl.r && !w.fl.lib) && w.pfn in v.data && |v.data[w.pfn]| == NWORD
  }

  /** All mappings of a page agree on whether it is shared. */
  ghost predicate Uniform(v: Vm) {
    forall j, k :: j in v.pt && k in v.pt && v.pt[j].pfn == v.pt[k].pfn ==> v.pt[j].fl.lib == v.pt[k].fl.lib
  }

  /** A page mapped twice is plainly writable nowhere a program can look, LIBRARY pages apart. */
  ghost predicate Guarded(v: Vm) {
    forall j, k :: Clash(v, j, k) ==> j in v.hidden || k in v.hidden
  }

  predicate Clash(v: Vm, j: Key, k: Key) {
    j in v.pt && k in v.pt && j != k && v.pt[j].pfn == v.pt[k].pfn && !v.pt[j].fl.lib && Writable(v.pt[j])
  }

  ghost predicate HiddenOk(v: Vm) {
    && (forall h :: h in v.hidden ==> h.d in v.embryo || (h.d in v.fault && h == Temp(h.d)))
    && (forall e, h :: e in v.fork && h in v.hidden && h.d == v.fork[e].child ==>
          v.fork[e].Half? && h == Twin(h.d, v.fork[e].k))
  }

  ghost predicate ForkOk(v: Vm) {
    && (forall e :: e in v.fork ==> e !in v.embryo && v.fork[e].child in v.embryo)
    && (forall e, f :: e in v.fork && f in v.fork && v.fork[e].child == v.fork[f].child ==> e == f)
    && (forall e :: e in v.fork && v.fork[e].Half? ==> HalfOk(v, e, v.fork[e].child, v.fork[e].k))
  }

  ghost predicate HalfOk(v: Vm, e: nat, c: nat, k: Key) {
    k.d == e && k in v.pt && k !in v.hidden && Writable(v.pt[k]) && !v.pt[k].fl.lib
    && Twin(c, k) in v.pt && Twin(c, k) in v.hidden && v.pt[Twin(c, k)] == Word(v.pt[k].pfn, VRCOW)
  }

  ghost predicate FaultAt(v: Vm, e: nat)
    requires e in v.fault
  {
    && FaultLinks(v, e)
    && (v.fault[e].Copying? ==> CopyOk(v, e, v.fault[e].k, v.fault[e].done))
  }

  predicate FaultLinks(v: Vm, e: nat)
    requires e in v.fault
  {
    e !in v.embryo && Temp(e) in v.pt && Temp(e) in v.hidden && v.fault[e].k.d == e
  }

  ghost predicate FaultOk(v: Vm) {
    forall e :: e in v.fault ==> FaultAt(v, e)
  }

  /** While pgfault copies, nothing else maps the page it copies to, and the faulting page
      still reads as it did. */
  ghost predicate CopyOk(v: Vm, e: nat, k: Key, done: nat) {
    && done <= NWORD && k in v.pt && Temp(e) in v.pt && !v.pt[Temp(e)].fl.cow && !v.pt[Temp(e)].fl.lib
    && (forall j :: j in v.pt && j != Temp(e) ==> v.pt[j].pfn != v.pt[Temp(e)].pfn)
    && (k != Temp(e) ==>
          && v.pt[k].fl.cow && v.pt[Temp(e)].fl == v.pt[k].fl.(cow := false)
          && v.pt[k].pfn in v.data && v.pt[Temp(e)].pfn in v.data
          && |v.data[v.pt[k].pfn]| == NWORD && |v.data[v.pt[Temp(e)].pfn]| == NWORD
          && forall i :: 0 <= i < done ==> v.data[v.pt[Temp(e)].pfn][i] == v.data[v.pt[k].pfn][i])
  }

  ghost predicate VmInv(v: Vm) {
    Sane(v) && Uniform(v) && Guarded(v) && HiddenOk(v) && ForkOk(v) && FaultOk(v)
  }

  // ---------- every step keeps the invariant ----------

  /** `n` comes from `v` by the step `a`, and the invariant held before it. */
  ghost predicate Steps(v: Vm, a: Act, n: Vm) {
    VmInv(v) && Can(v, a) && n == Next(v, a)
  }

  /** The steps that put a fresh page in, and those of duppage. */
  predicate Fills(a: Act) { a.Alloc? || a.Pageout? || a.Trap? || a.Stack? }

  predicate Shares(a: Act) { a.Dup? || a.Mark? }

  /** The steps that change who runs, forks or exists. */
  predicate Controls(a: Act) { a.Spawn? || a.Release? || a.Exit? }

  // ----- mappings -----

  lemma SaneFills(v: Vm, a: Act, n: Vm, k: Key)
    requires Steps(v, a, n) && Fills(a) && k in n.pt
    ensures EntryOk(n, k)
  {
    hide Uniform, Guarded, FaultOk, HiddenOk, ForkOk;
  }

  lemma SaneDup(v: Vm, a: Act, n: Vm, k: Key)
    requires Steps(v, a, n) && a.Dup? && k in n.pt
    ensures EntryOk(n, k)
  {
    hide Uniform, Guarded, FaultOk, HiddenOk, ForkOk;
  }

  lemma SaneMark(v: Vm, a: Act, n: Vm, k: Key)
    requires Steps(v, a, n) && a.Mark? && k in n.pt
    ensures EntryOk(n, k)
  {
    hide Uniform, Guarded, FaultOk, HiddenOk, ForkOk;
  }

  lemma SaneOthers(v: Vm, a: Act, n: Vm, k: Key)
    requires Steps(v, a, n) && !Fills(a) && !Shares(a) && k in n.pt
    ensures EntryOk(n, k)
  {
    hide Uniform, Guarded, FaultOk, HiddenOk, ForkOk;
  }

  lemma SaneStep(v: Vm, a: Act, n: Vm)
    requires Steps(v, a, n)
    ensures Sane(n)
  {
    hide Steps, EntryOk;
    forall k | k in n.pt ensures EntryOk(n, k) {
      if Fills(a) { SaneFills(v, a, n, k); }
      else if a.Dup? { SaneDup(v, a, n, k); }
      else if a.Mark? { SaneMark(v, a, n, k); }
      else { SaneOthers(v, a, n, k); }
    }
  }

  lemma UniformFills(v: Vm, a: Act, n: Vm, j: Key, k: Key)
    requires Steps(v, a, n) && Fills(a) && j in n.pt && k in n.pt && n.pt[j].pfn == n.pt[k].pfn
    ensures n.pt[j].fl.lib == n.pt[k].fl.lib
  {
    hide Guarded, FaultOk, HiddenOk, ForkOk;
  }

  lemma UniformDup(v: Vm, a: Act, n: Vm, j: Key, k: Key)
    requires Steps(v, a, n) && a.Dup? && j in n.pt && k in n.pt && n.pt[j].pfn == n.pt[k].pfn
    ensures n.pt[j].fl.lib == n.pt[k].fl.lib
  {
    hide Guarded, FaultOk, HiddenOk, ForkOk;
  }

  lemma UniformMark(v: Vm, a: Act, n: Vm, j: Key, k: Key)
    requires Steps(v, a, n) && a.Mark? && j in n.pt && k in n.pt && n.pt[j].pfn == n.pt[k].pfn
    ensures n.pt[j].fl.lib == n.pt[k].fl.lib
  {
    hide Guarded, FaultOk, HiddenOk, ForkOk;
  }

  lemma UniformOthers(v: Vm, a: Act, n: Vm, j: Key, k: Key)
    requires Steps(v, a, n) && !Fills(a) && !Shares(a) && j in n.pt && k in n.pt && n.pt[j].pfn == n.pt[k].pfn
    ensures n.pt[j].fl.lib == n.pt[k].fl.lib
  {
    hide Guarded, HiddenOk, ForkOk;
  }

  lemma UniformStep(v: Vm, a: Act, n: Vm)
    requires Steps(v, a, n)
    ensures Uniform(n)
  {
    hide Steps;
    forall j, k | j in n.pt && k in n.pt && n.pt[j].pfn == n.pt[k].pfn ensures n.pt[j].fl.lib == n.pt[k].fl.lib {
      if Fills(a) { UniformFills(v, a, n, j, k); }
      else if a.Dup? { UniformDup(v, a, n, j, k); }
      else if a.Mark? { UniformMark(v, a, n, j, k); }
      else { UniformOthers(v, a, n, j, k); }
    }
  }

  // ----- sharing -----

  lemma GuardedFills(v: Vm, a: Act, n: Vm, j: Key, k: Key)
    requires Steps(v, a, n) && Fills(a) && !a.Trap? && Clash(n, j, k)
    ensures j in n.hidden || k in n.hidden
  {
    hide Uniform, HiddenOk;
  }

  lemma GuardedTrap(v: Vm, a: Act, n: Vm, j: Key, k: Key)
    requires Steps(v, a, n) && a.Trap? && Clash(n, j, k)
    ensures j in n.hidden || k in n.hidden
  {
    hide Uniform, HiddenOk;
  }

  lemma DupMovesTwin(v: Vm, a: Act, n: Vm, j: Key, k: Key)
    requires Steps(v, a, n) && a.Dup? && Clash(n, j, k)
    ensures j in v.pt && n.pt[j] == v.pt[j] && n.hidden >= v.hidden
    ensures (k in v.pt && n.pt[k] == v.pt[k]) || n.pt[k].pfn == v.pt[a.k].pfn
    ensures a.k !in v.hidden && (j == a.k && (k !in v.pt || n.pt[k] != v.pt[k]) ==> k in n.hidden)
  {
    hide Uniform, Guarded, Sane, CopyOk;
  }

  lemma GuardedDup(v: Vm, a: Act, n: Vm, j: Key, k: Key)
    requires Steps(v, a, n) && a.Dup? && Clash(n, j, k)
    ensures j in n.hidden || k in n.hidden
  {
    DupMovesTwin(v, a, n, j, k);
    hide Uniform, Sane, HiddenOk, ForkOk, FaultOk, Next;
    if k in v.pt && n.pt[k] == v.pt[k] { assert Clash(v, j, k); } else if j != a.k { assert Clash(v, j, a.k); }
  }

  /** What marking changes: the mapping, and at most one hidden copy-on-write mapping of a
      page that was plainly writable comes into sight. */
  lemma MarkHides(v: Vm, a: Act, n: Vm)
    requires Steps(v, a, n) && a.Mark?
    ensures n.pt == v.pt[a.k := Word(v.pt[a.k].pfn, DupFlags(v.pt[a.k].fl))]
    ensures n.hidden == v.hidden
            || (Writable(v.pt[a.k])
                && exists h :: n.hidden == v.hidden - {h} && h in v.pt && v.pt[h] == Word(v.pt[a.k].pfn, VRCOW))
  {
    hide Uniform, Guarded, Sane, FaultOk, HiddenOk;
    var e := a.k.d;
    if v.fork[e].Half? { assert HalfOk(v, e, v.fork[e].child, a.k); }
  }

  lemma GuardedMark(v: Vm, a: Act, n: Vm, j: Key, k: Key)
    requires Steps(v, a, n) && a.Mark? && Clash(n, j, k)
    ensures j in n.hidden || k in n.hidden
  {
    MarkHides(v, a, n);
    hide Sane, Uniform, ForkOk, FaultOk, HiddenOk, Next, Can;
    assert Clash(v, j, k);
  }

  lemma GuardedControls(v: Vm, a: Act, n: Vm, j: Key, k: Key)
    requires Steps(v, a, n) && (a.Spawn? || a.Release?) && Clash(n, j, k)
    ensures j in n.hidden || k in n.hidden
  {
    hide Uniform, FaultOk, Sane;
  }

  lemma GuardedExit(v: Vm, a: Act, n: Vm, j: Key, k: Key)
    requires Steps(v, a, n) && a.Exit? && Clash(n, j, k)
    ensures j in n.hidden || k in n.hidden
  {
    hide Uniform, Sane;
  }

  lemma GuardedOthers(v: Vm, a: Act, n: Vm, j: Key, k: Key)
    requires Steps(v, a, n) && !Fills(a) && !Shares(a) && !Controls(a) && Clash(n, j, k)
    ensures j in n.hidden || k in n.hidden
  {
    hide Uniform, ForkOk, HiddenOk;
  }

  lemma GuardedStep(v: Vm, a: Act, n: Vm)
    requires Steps(v, a, n)
    ensures Guarded(n)
  {
    hide Steps, Clash;
    forall j, k | Clash(n, j, k) ensures j in n.hidden || k in n.hidden {
      if a.Trap? { GuardedTrap(v, a, n, j, k); }
      else if Fills(a) { GuardedFills(v, a, n, j, k); }
      else if a.Dup? { GuardedDup(v, a, n, j, k); }
      else if a.Mark? { GuardedMark(v, a, n, j, k); }
      else if a.Exit? { GuardedExit(v, a, n, j, k); }
      else if Controls(a) { GuardedControls(v, a, n, j, k); }
      else { GuardedOthers(v, a, n, j, k); }
    }
  }

  // ----- hidden mappings -----

  lemma HiddenPlaces(v: Vm, a: Act, n: Vm, h: Key)
    requires Steps(v, a, n) && h in n.hidden
    ensures h.d in n.embryo || (h.d in n.fault && h == Temp(h.d))
  {
    hide Uniform, Guarded, Sane, FaultOk, HalfOk;
  }

  lemma HiddenTwinDup(v: Vm, a: Act, n: Vm, e: nat, h: Key)
    requires Steps(v, a, n) && a.Dup? && e in n.fork && h in n.hidden && h.d == n.fork[e].child
    ensures n.fork[e].Half? && h == Twin(h.d, n.fork[e].k)
  {
    hide Uniform, Guarded, Sane, FaultOk, HalfOk;
  }

  lemma HiddenTwinControls(v: Vm, a: Act, n: Vm, e: nat, h: Key)
    requires Steps(v, a, n) && Controls(a) && e in n.fork && h in n.hidden && h.d == n.fork[e].child
    ensures n.fork[e].Half? && h == Twin(h.d, n.fork[e].k)
  {
    hide Uniform, Guarded, Sane, FaultOk, HalfOk;
  }

  lemma HiddenTwinOthers(v: Vm, a: Act, n: Vm, e: nat, h: Key)
    requires Steps(v, a, n) && !a.Dup? && !Controls(a) && e in n.fork && h in n.hidden && h.d == n.fork[e].child
    ensures n.fork[e].Half? && h == Twin(h.d, n.fork[e].k)
  {
    hide Uniform, Guarded, Sane, FaultOk, HalfOk;
  }

  lemma HiddenStep(v: Vm, a: Act, n: Vm)
    requires Steps(v, a, n)
    ensures HiddenOk(n)
  {
    hide Steps;
    forall h | h in n.hidden ensures h.d in n.embryo || (h.d in n.fault && h == Temp(h.d)) {
      HiddenPlaces(v, a, n, h);
    }
    forall e, h | e in n.fork && h in n.hidden && h.d == n.fork[e].child
      ensures n.fork[e].Half? && h == Twin(h.d, n.fork[e].k)
    {
      if a.Dup? { HiddenTwinDup(v, a, n, e, h); }
      else if Controls(a) { HiddenTwinControls(v, a, n, e, h); }
      else { HiddenTwinOthers(v, a, n, e, h); }
    }
  }

  // ----- forks -----

  /** Which forks there are after a step, and which children exist. */
  lemma ForksAfter(v: Vm, a: Act, n: Vm, e: nat)
    requires Steps(v, a, n) && e in n.fork
    ensures (a.Spawn? && e == a.e && n.fork[e].child == a.c)
            || (e in v.fork && n.fork[e].child == v.fork[e].child && (a.Release? ==> e != a.e))
  {
    hide Uniform, Guarded, Sane, FaultOk, HiddenOk, ForkOk;
  }

  lemma EmbryosAfter(v: Vm, a: Act, n: Vm)
    requires Steps(v, a, n)
    ensures n.embryo == if a.Spawn? then v.embryo + {a.c} else if a.Release? then v.embryo - {v.fork[a.e].child} else v.embryo
  {
    hide Uniform, Guarded, Sane, FaultOk, HiddenOk, ForkOk;
  }

  lemma ForkChild(v: Vm, a: Act, n: Vm, e: nat)
    requires Steps(v, a, n) && e in n.fork
    ensures e !in n.embryo && n.fork[e].child in n.embryo
  {
    ForksAfter(v, a, n, e);
    EmbryosAfter(v, a, n);
    hide Uniform, Guarded, Sane, FaultOk, HalfOk, HiddenOk, Next;
  }

  lemma ForkChildren(v: Vm, a: Act, n: Vm, e: nat, f: nat)
    requires Steps(v, a, n) && e in n.fork && f in n.fork && n.fork[e].child == n.fork[f].child
    ensures e == f
  {
    ForksAfter(v, a, n, e);
    ForksAfter(v, a, n, f);
    hide Uniform, Guarded, Sane, FaultOk, HalfOk, HiddenOk, Next;
  }

  lemma HalfTrap(v: Vm, a: Act, n: Vm, e: nat)
    requires Steps(v, a, n) && a.Trap? && e in n.fork && n.fork[e].Half?
    ensures HalfOk(n, e, n.fork[e].child, n.fork[e].k)
  {
    hide Uniform, Guarded, Sane, FaultOk, HiddenOk;
    assert HalfOk(v, e, v.fork[e].child, v.fork[e].k);
  }

  lemma HalfDup(v: Vm, a: Act, n: Vm, e: nat)
    requires Steps(v, a, n) && a.Dup? && e == a.k.d && e in n.fork && n.fork[e].Half?
    ensures HalfOk(n, e, n.fork[e].child, n.fork[e].k)
  {
    hide Uniform, Guarded, Sane, FaultOk;
  }

  lemma HalfBesideDup(v: Vm, a: Act, n: Vm, e: nat)
    requires Steps(v, a, n) && a.Dup? && e != a.k.d && e in n.fork && n.fork[e].Half?
    ensures HalfOk(n, e, n.fork[e].child, n.fork[e].k)
  {
    hide Uniform, Guarded, Sane, FaultOk, HiddenOk;
    assert HalfOk(v, e, v.fork[e].child, v.fork[e].k);
  }

  lemma HalfMark(v: Vm, a: Act, n: Vm, e: nat)
    requires Steps(v, a, n) && a.Mark? && e in n.fork && n.fork[e].Half?
    ensures HalfOk(n, e, n.fork[e].child, n.fork[e].k)
  {
    hide Uniform, Guarded, Sane, FaultOk, HiddenOk;
    assert HalfOk(v, e, v.fork[e].child, v.fork[e].k);
  }

  lemma HalfControls(v: Vm, a: Act, n: Vm, e: nat)
    requires Steps(v, a, n) && (a.Spawn? || a.Release?) && e in n.fork && n.fork[e].Half?
    ensures HalfOk(n, e, n.fork[e].child, n.fork[e].k)
  {
    hide Uniform, Guarded, Sane, FaultOk, HiddenOk;
    assert HalfOk(v, e, v.fork[e].child, v.fork[e].k);
  }

  lemma HalfExit(v: Vm, a: Act, n: Vm, e: nat)
    requires Steps(v, a, n) && a.Exit? && e in n.fork && n.fork[e].Half?
    ensures HalfOk(n, e, n.fork[e].child, n.fork[e].k)
  {
    hide Uniform, Guarded, Sane, FaultOk, HiddenOk;
    assert HalfOk(v, e, v.fork[e].child, v.fork[e].k);
  }

  lemma HalfOthers(v: Vm, a: Act, n: Vm, e: nat)
    requires Steps(v, a, n) && !a.Trap? && !Shares(a) && !Controls(a) && e in n.fork && n.fork[e].Half?
    ensures HalfOk(n, e, n.fork[e].child, n.fork[e].k)
  {
    hide Uniform, Guarded, Sane;
    assert HalfOk(v, e, v.fork[e].child, v.fork[e].k);
  }

  lemma ForkStep(v: Vm, a: Act, n: Vm)
    requires Steps(v, a, n)
    ensures ForkOk(n)
  {
    hide Steps, HalfOk;
    forall e | e in n.fork ensures e !in n.embryo && n.fork[e].child in n.embryo { ForkChild(v, a, n, e); }
    forall e, f | e in n.fork && f in n.fork && n.fork[e].child == n.fork[f].child ensures e == f {
      ForkChildren(v, a, n, e, f);
    }
    forall e | e in n.fork && n.fork[e].Half? ensures HalfOk(n, e, n.fork[e].child, n.fork[e].k) {
      match a
      case Trap(_, _) => HalfTrap(v, a, n, e);
      case Dup(_) => if e == a.k.d { HalfDup(v, a, n, e); } else { HalfBesideDup(v, a, n, e); }
      case Mark(_) => HalfMark(v, a, n, e);
      case Exit(_) => HalfExit(v, a, n, e);
      case _ => if Controls(a) { HalfControls(v, a, n, e); } else { HalfOthers(v, a, n, e); }
    }
  }

  // ----- faults -----

  lemma FaultDup(v: Vm, a: Act, n: Vm, e: nat)
    requires Steps(v, a, n) && a.Dup? && e in n.fault
    ensures FaultLinks(n, e)
  {
    hide Uniform, Guarded, Sane, CopyOk;
    assert FaultAt(v, e);
  }

  lemma FaultMark(v: Vm, a: Act, n: Vm, e: nat)
    requires Steps(v, a, n) && a.Mark? && e in n.fault
    ensures FaultLinks(n, e)
  {
    hide Uniform, Guarded, Sane, CopyOk;
    assert FaultAt(v, e);
  }

  lemma FaultControls(v: Vm, a: Act, n: Vm, e: nat)
    requires Steps(v, a, n) && Controls(a) && e in n.fault
    ensures FaultLinks(n, e)
  {
    hide Uniform, Guarded, Sane, CopyOk;
    assert FaultAt(v, e);
  }

  lemma FaultOthers(v: Vm, a: Act, n: Vm, e: nat)
    requires Steps(v, a, n) && !Shares(a) && !Controls(a) && e in n.fault
    ensures FaultLinks(n, e)
  {
    hide Uniform, Guarded, Sane, CopyOk;
    if e in v.fault { assert FaultAt(v, e); }
  }

  /** What a copy in progress needs of a step: the two mappings and their pages stay, and the
      page copied to is put in nowhere else. */
  lemma CopyStays(v: Vm, n: Vm, e: nat, k: Key, done: nat)
    requires CopyOk(v, e, k, done)
    requires k in n.pt && Temp(e) in n.pt && n.pt[k] == v.pt[k] && n.pt[Temp(e)] == v.pt[Temp(e)]
    requires forall j :: j in n.pt && j != Temp(e) ==> n.pt[j].pfn != n.pt[Temp(e)].pfn
    requires k != Temp(e) ==> forall p :: (p == v.pt[k].pfn || p == v.pt[Temp(e)].pfn) && p in v.data ==>
      p in n.data && n.data[p] == v.data[p]
    ensures CopyOk(n, e, k, done)
  {}

  lemma TempStays(v: Vm, a: Act, n: Vm, e: nat)
    requires Steps(v, a, n) && (Shares(a) || Fills(a)) && e in v.fault && v.fault[e].Copying?
    ensures Temp(e) in v.pt && Temp(e) in n.pt && n.pt[Temp(e)] == v.pt[Temp(e)]
  {
    hide Uniform, Guarded, Sane, HiddenOk;
    assert FaultAt(v, e);
  }

  lemma FaultingStays(v: Vm, a: Act, n: Vm, e: nat)
    requires Steps(v, a, n) && (Shares(a) || Fills(a)) && e in v.fault && v.fault[e].Copying?
    ensures v.fault[e].k in v.pt && v.fault[e].k in n.pt && n.pt[v.fault[e].k] == v.pt[v.fault[e].k]
  {
    hide Uniform, Guarded, Sane, HiddenOk;
    assert FaultAt(v, e);
  }

  lemma CopyAlone(v: Vm, a: Act, n: Vm, e: nat, j: Key)
    requires Steps(v, a, n) && (Shares(a) || Fills(a)) && e in v.fault && v.fault[e].Copying?
    requires j in n.pt && j != Temp(e) && Temp(e) in v.pt
    ensures n.pt[j].pfn != v.pt[Temp(e)].pfn
  {
    hide Uniform, Guarded, Sane, HiddenOk, ForkOk;
    assert FaultAt(v, e);
  }

  lemma CopyPages(v: Vm, a: Act, n: Vm, p: nat)
    requires Steps(v, a, n) && (Shares(a) || Fills(a)) && p in v.data && exists k :: k in v.pt && v.pt[k].pfn == p
    ensures p in n.data && n.data[p] == v.data[p]
  {
    hide Uniform, Guarded, Sane, HiddenOk, ForkOk, FaultOk;
  }

  lemma CopyShares(v: Vm, a: Act, n: Vm, e: nat)
    requires Steps(v, a, n) && (Shares(a) || Fills(a)) && e in v.fault && v.fault[e].Copying?
    ensures CopyOk(n, e, v.fault[e].k, v.fault[e].done)
  {
    TempStays(v, a, n, e);
    FaultingStays(v, a, n, e);
    forall j | j in n.pt && j != Temp(e) ensures n.pt[j].pfn != v.pt[Temp(e)].pfn { CopyAlone(v, a, n, e, j); }
    forall p | (p == v.pt[v.fault[e].k].pfn || p == v.pt[Temp(e)].pfn) && p in v.data
      ensures p in n.data && n.data[p] == v.data[p]
    {
      CopyPages(v, a, n, p);
    }
    assert FaultAt(v, e) by { assert VmInv(v); }
    assert CopyOk(v, e, v.fault[e].k, v.fault[e].done);
    hide *;
    CopyStays(v, n, e, v.fault[e].k, v.fault[e].done);
  }

  lemma CopyStarts(v: Vm, a: Act, n: Vm)
    requires Steps(v, a, n) && a.Trap?
    ensures a.k.d in n.fault && n.fault[a.k.d] == Copying(a.k, 0) && CopyOk(n, a.k.d, a.k, 0)
  {
    hide Uniform, Guarded, FaultOk, HiddenOk, ForkOk;
  }

  lemma CopyStore(v: Vm, a: Act, n: Vm, e: nat)
    requires Steps(v, a, n) && a.Store? && e in n.fault && n.fault[e].Copying?
    ensures CopyOk(n, e, n.fault[e].k, n.fault[e].done)
  {
    hide ForkOk;
    assert FaultAt(v, e);
  }

  lemma CopyCopy(v: Vm, a: Act, n: Vm, e: nat)
    requires Steps(v, a, n) && a.Copy? && e in n.fault && n.fault[e].Copying?
    ensures CopyOk(n, e, n.fault[e].k, n.fault[e].done)
  {
    hide Uniform, Guarded, ForkOk, HiddenOk;
    assert FaultAt(v, e);
  }

  lemma CopyControls(v: Vm, a: Act, n: Vm, e: nat)
    requires Steps(v, a, n) && Controls(a) && e in n.fault && n.fault[e].Copying?
    ensures CopyOk(n, e, n.fault[e].k, n.fault[e].done)
  {
    hide Uniform, Guarded, Sane, HiddenOk;
    assert FaultAt(v, e);
  }

  lemma CopyOthers(v: Vm, a: Act, n: Vm, e: nat)
    requires Steps(v, a, n) && (a.Unmap? || a.Remap? || a.Return?) && e in n.fault && n.fault[e].Copying?
    ensures CopyOk(n, e, n.fault[e].k, n.fault[e].done)
  {
    hide Uniform, Guarded, Sane, HiddenOk, ForkOk;
    assert FaultAt(v, e);
    if !a.Unmap? { assert FaultAt(v, a.e); }
    forall j | j in n.pt && j != Temp(e) ensures n.pt[j].pfn != v.pt[Temp(e)].pfn {}
    assert n.fault[e] == v.fault[e];
    CopyStays(v, n, e, v.fault[e].k, v.fault[e].done);
  }

  lemma FaultSame(v: Vm, a: Act, n: Vm, e: nat)
    requires Steps(v, a, n) && (Shares(a) || Fills(a)) && e in n.fault && !(a.Trap? && e == a.k.d)
    ensures e in v.fault && n.fault[e] == v.fault[e]
  {
    hide Sane, Uniform, Guarded, HiddenOk, ForkOk, FaultOk;
  }

  lemma FaultStep(v: Vm, a: Act, n: Vm)
    requires Steps(v, a, n)
    ensures FaultOk(n)
  {
    hide Steps, CopyOk, FaultLinks;
    forall e | e in n.fault ensures FaultAt(n, e) {
      if a.Dup? { FaultDup(v, a, n, e); }
      else if a.Mark? { FaultMark(v, a, n, e); }
      else if Controls(a) { FaultControls(v, a, n, e); }
      else { FaultOthers(v, a, n, e); }
      if n.fault[e].Copying? {
        if a.Trap? && e == a.k.d { CopyStarts(v, a, n); }
        else if Shares(a) || Fills(a) { FaultSame(v, a, n, e); CopyShares(v, a, n, e); }
        else if a.Store? { CopyStore(v, a, n, e); }
        else if a.Copy? { CopyCopy(v, a, n, e); }
        else if Controls(a) { CopyControls(v, a, n, e); }
        else { CopyOthers(v, a, n, e); }
      }
    }
  }

  /** Every step of every environment, in any order, keeps the invariant. */
  lemma StepInv(v: Vm, a: Act)
    requires VmInv(v) && Can(v, a)
    ensures VmInv(Next(v, a))
  {
    var n := Next(v, a);
    hide Sane, Uniform, Guarded, HiddenOk, ForkOk, FaultOk, Can, Next;
    SaneStep(v, a, n);
    UniformStep(v, a, n);
    GuardedStep(v, a, n);
    HiddenStep(v, a, n);
    ForkStep(v, a, n);
    FaultStep(v, a, n);
  }
}
