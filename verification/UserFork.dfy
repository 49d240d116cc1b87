/** pgfault, duppage and fork of user/fork.c, each run from start to end without another
    environment in between. (CowRuns covers every interleaving of their steps.) */
module UserFork {
  import opened Mmu
  import opened Pmap
  import opened Cow
  import opened CowSpec
  import opened CowRuns

  /** What programs see after a step, from what they saw before it. */
  lemma CellsStep(v: Vm, a: Act)
    requires VmInv(v) && Can(v, a)
    ensures VmInv(Next(v, a)) && Cells(Next(v, a)) == ApplyAll(Model(Cells(v), v.data), Effects(v, a)).cells
  {
    hide Cells, Uniform, Guarded, HiddenOk, ForkOk, FaultOk, ApplyAll;
    var m := Model(Cells(v), v.data);
    SimSelf(v, m);
    Simulates(v, m, a);
  }

  lemma QuietStep(v: Vm, a: Act)
    requires VmInv(v) && Can(v, a) && Effects(v, a) == []
    ensures VmInv(Next(v, a)) && Cells(Next(v, a)) == Cells(v)
  {
    hide Cells, Uniform, Guarded, HiddenOk, ForkOk, FaultOk, ApplyAll;
    CellsStep(v, a);
    ApplyNone(Model(Cells(v), v.data));
  }

  lemma OneEffect(v: Vm, a: Act, f: Effect)
    requires VmInv(v) && Can(v, a) && Effects(v, a) == [f]
    ensures VmInv(Next(v, a)) && Cells(Next(v, a)) == Apply(Model(Cells(v), v.data), f).cells
  {
    hide Cells, Uniform, Guarded, HiddenOk, ForkOk, FaultOk, ApplyAll;
    CellsStep(v, a);
    ApplyOne(Model(Cells(v), v.data), f);
  }

  lemma TempSeen(v: Vm, e: nat)
    requires VmInv(v) && e !in v.embryo && e !in v.fault
    ensures Temp(e) in Cells(v) <==> Temp(e) in v.pt
  {}

  lemma TrapEffect(u: Vm, k: Key, p: nat)
    requires VmInv(u) && Can(u, Trap(k, p)) && Settled(u, k.d, Temp(k.d)) == []
    ensures var n := Next(u, Trap(k, p)); var t := Temp(k.d);
            && VmInv(n) && Cells(n) == Cells(u) - {t} && (t in Cells(u) <==> t in u.pt)
            && n.pt == u.pt[t := Word(p, u.pt[k].fl.(cow := false))] && n.fault == u.fault[k.d := Copying(k, 0)]
            && n.fork == u.fork && n.embryo == u.embryo
    ensures u.pt[k].fl.r && k.d !in u.fault && forall j :: j in u.pt ==> u.pt[j].pfn != p
  {
    hide Cells, Uniform, Guarded, HiddenOk, ForkOk, FaultOk;
    OneEffect(u, Trap(k, p), Forget(Temp(k.d)));
    TempSeen(u, k.d);
  }

  lemma OwnSeen(v: Vm, k: Key)
    requires VmInv(v) && k.d !in v.embryo && k.d !in v.fault
    ensures k in Cells(v) <==> k in v.pt
  {}

  lemma TwinApart(u: Vm, k: Key)
    requires VmInv(u) && Can(u, Dup(k))
    ensures Twin(u.fork[k.d].child, k) != k && k in Cells(u)
  {
    OwnSeen(u, k);
  }

  lemma DupEffect(u: Vm, n: Vm, k: Key)
    requires VmInv(u) && Can(u, Dup(k)) && n == Next(u, Dup(k))
    ensures var t := Twin(u.fork[k.d].child, k);
            && VmInv(n) && k in Cells(u) && k in Cells(n) && Cells(n)[k] == Cells(u)[k] && t != k
            && Cells(n) == (if Writable(u.pt[k]) && !u.pt[k].fl.lib then Cells(u) - {t} else Cells(u)[t := Cells(u)[k]])
  {
    hide Uniform, Guarded, HiddenOk, ForkOk, FaultOk, Cells, Next;
    var t := Twin(u.fork[k.d].child, k);
    TwinApart(u, k);
    OneEffect(u, Dup(k), if Writable(u.pt[k]) && !u.pt[k].fl.lib then Forget(t) else Clone(k, t));
  }

  /** The entry with which duppage shares a page: PTE_V and PTE_R, with PTE_LIBRARY if the page has it and
      with PTE_COW if not. */
  function SharedWord(w: Word): Word { Word(w.pfn, BitsFlag(if w.fl.lib then 0x604 else 0x601)) }

  lemma SharedFlags(w: Word)
    ensures SharedWord(w) == Word(w.pfn, DupFlags(w.fl)) && SharedWord(w).fl.lib == w.fl.lib
  {}

  /** The page tables after duppage's first call. */
  lemma DupTables(u: Vm, n: Vm, k: Key)
    requires Can(u, Dup(k)) && n == Next(u, Dup(k))
    ensures var t := Twin(u.fork[k.d].child, k);
            && n.fault == u.fault && n.embryo == u.embryo
            && n.pt == u.pt[t := if u.pt[k].fl.r || u.pt[k].fl.cow then SharedWord(u.pt[k]) else u.pt[k]]
            && (forall j :: j in n.pt ==> n.pt[j].pfn == u.pt[if j == t then k else j].pfn)
            && (!u.pt[k].fl.r && !u.pt[k].fl.cow ==> n.fork == u.fork)
  {
    SharedFlags(u.pt[k]);
    hide SharedWord, DupFlags;
  }

  lemma MarkEffect(u: Vm, n: Vm, k: Key)
    requires VmInv(u) && Can(u, Dup(k)) && n == Next(u, Dup(k)) && (u.pt[k].fl.r || u.pt[k].fl.cow)
    ensures VmInv(n) && Can(n, Mark(k)) && VmInv(Next(n, Mark(k)))
    ensures k in Cells(u) && Cells(Next(n, Mark(k))) == Cells(u)[Twin(u.fork[k.d].child, k) := Cells(u)[k]]
  {
    hide Cells, Uniform, Guarded, FaultOk, ForkOk, HiddenOk;
    DupEffect(u, n, k);
    if Writable(u.pt[k]) && !u.pt[k].fl.lib {
      OneEffect(n, Mark(k), Clone(k, Twin(u.fork[k.d].child, k)));
    } else {
      QuietStep(n, Mark(k));
    }
  }

  lemma MarkTables(u: Vm, n: Vm, k: Key)
    requires Can(u, Dup(k)) && n == Next(u, Dup(k)) && (u.pt[k].fl.r || u.pt[k].fl.cow) && Can(n, Mark(k))
    requires Twin(u.fork[k.d].child, k) != k
    ensures var r := Next(n, Mark(k));
            && r.fault == u.fault && r.embryo == u.embryo && r.fork == u.fork && r.pt == n.pt[k := SharedWord(u.pt[k])]
            && forall j :: j in r.pt ==> r.pt[j].pfn == n.pt[j].pfn
  {
    SharedFlags(u.pt[k]);
    SharedFlags(n.pt[k]);
    hide SharedWord, DupFlags;
  }

  /** What fork's scan has done when it reaches slot (x, t): the child has what the parent has
      below, and no other environment sees a difference. */
  ghost function Snapshot(m: map<Key, Cell>, e: nat, c: nat, x: nat, t: nat): (r: map<Key, Cell>)
    ensures forall i :: i in r <==> i in m || InChild(m, e, c, x, t, i)
    ensures forall i :: i in r ==> r[i] == if InChild(m, e, c, x, t, i) then m[Twin(e, i)] else m[i]
  {
    hide InChild, Twin;
    m + map i | i in ChildKeys(m, e, c, x, t) :: m[Twin(e, i)]
  }

  ghost function ChildKeys(m: map<Key, Cell>, e: nat, c: nat, x: nat, t: nat): (r: set<Key>)
    ensures forall i :: i in r <==> InChild(m, e, c, x, t, i)
    ensures forall i :: i in r ==> Twin(e, i) in m
  {
    assert forall i :: InChild(m, e, c, x, t, i) ==> i == Twin(c, Twin(e, i));
    set j | j in m && j.d == e && Copied(j, x, t) :: Twin(c, j)
  }

  predicate InChild(m: map<Key, Cell>, e: nat, c: nat, x: nat, t: nat, i: Key) {
    i.d == c && Copied(i, x, t) && Twin(e, i) in m
  }

  predicate Copied(k: Key, x: nat, t: nat) {
    (k.x < x || (k.x == x && k.t < t)) && k.t < NWORD && !(k.x == XSTKX && k.t == XSTKT)
  }

  lemma SnapshotStart(m: map<Key, Cell>, e: nat, c: nat)
    ensures Snapshot(m, e, c, 0, 0) == m
  {
    hide Snapshot;
  }

  lemma SnapshotStep(m: map<Key, Cell>, e: nat, c: nat, x: nat, t: nat)
    requires e != c && t < NWORD && forall k :: k in m ==> k.d != c
    ensures var k := Key(e, x, t); var s := Snapshot(m, e, c, x, t);
            && (k in s <==> k in m) && (k in m ==> s[k] == m[k])
            && Snapshot(m, e, c, x, t + 1) ==
               if k in m && !(x == XSTKX && t == XSTKT) then s[Twin(c, k) := m[k]] else s
  {
    hide Snapshot;
    var k := Key(e, x, t);
    var s, n := Snapshot(m, e, c, x, t), Snapshot(m, e, c, x, t + 1);
    forall i | i != Twin(c, k) ensures InChild(m, e, c, x, t, i) <==> InChild(m, e, c, x, t + 1, i) {}
    if k in m && !(x == XSTKX && t == XSTKT) {
      assert n == s[Twin(c, k) := m[k]];
    } else {
      assert n == s;
    }
  }

  lemma SnapshotRow(m: map<Key, Cell>, e: nat, c: nat, x: nat)
    ensures Snapshot(m, e, c, x, NWORD) == Snapshot(m, e, c, x + 1, 0)
  {
    hide Snapshot;
    forall i ensures InChild(m, e, c, x, NWORD, i) <==> InChild(m, e, c, x + 1, 0, i) {}
  }

  lemma SpawnEffect(u: Vm, e: nat, c: nat)
    requires VmInv(u) && Can(u, Spawn(e, c))
    ensures var n := Next(u, Spawn(e, c));
            VmInv(n) && Cells(n) == Cells(u) && n.fork == u.fork[e := Forking(c)] && n.embryo == u.embryo + {c}
            && n.fault == u.fault && n.pt == u.pt
  {
    hide Cells, Sane, Uniform, Guarded, HiddenOk, ForkOk, FaultOk;
    QuietStep(u, Spawn(e, c));
  }

  lemma NoChild(u: Vm, c: nat)
    requires Sane(u) && forall k :: k in u.pt ==> k.d != c
    ensures forall k :: k in Cells(u) ==> k.d != c
  {}

  lemma StackEffect(u: Vm, e: nat, p: nat)
    requires VmInv(u) && Can(u, Stack(e, p))
    ensures var n := Next(u, Stack(e, p));
            VmInv(n) && Cells(n) == Cells(u)[Key(u.fork[e].child, XSTKX, XSTKT) := Private(ZeroPage(), true)]
            && n.fork == u.fork && n.embryo == u.embryo && n.fault == u.fault
  {
    hide Cells, Sane, Uniform, Guarded, HiddenOk, ForkOk, FaultOk;
    OneEffect(u, Stack(e, p), Zeros(Key(u.fork[e].child, XSTKX, XSTKT), p, false, true));
  }

  lemma ReleaseEffect(u: Vm, e: nat)
    requires VmInv(u) && Can(u, Release(e))
    ensures var n := Next(u, Release(e));
            VmInv(n) && Cells(n) == Cells(u) && n.fork == u.fork - {e}
            && n.embryo == u.embryo - {u.fork[e].child} && n.fault == u.fault
  {
    hide Cells, Sane, Uniform, Guarded, HiddenOk, ForkOk, FaultOk;
    QuietStep(u, Release(e));
  }

  // ---------- a fault that loses a page ----------

  const HEAP := Key(0, 1, 0)
  const CHILDS := Key(1, 1, 0)

  /** A program gets a page, forks, and then gets a page at pgfault's temporary address. */
  const LOSING: seq<Act> :=
    [Alloc(HEAP, VR, 5)] + ([Spawn(0, 1)] + ([Dup(HEAP)] + ([Mark(HEAP)] + ([Release(0)] + ([Alloc(Temp(0), VR, 6)] + [])))))

  const ONE_PAGE := Vm(map[HEAP := Word(5, VR)], map[5 := ZeroPage()], map[], map[], {}, {})
  const SPAWNED := ONE_PAGE.(fork := map[0 := Forking(1)], embryo := {1})
  const DUPPED := Vm(map[HEAP := Word(5, VR), CHILDS := Word(5, VRCOW)], map[5 := ZeroPage()],
                     map[0 := Half(1, HEAP)], map[], {1}, {CHILDS})
  const MARKED := Vm(map[HEAP := Word(5, VRCOW), CHILDS := Word(5, VRCOW)], map[5 := ZeroPage()],
                     map[0 := Forking(1)], map[], {1}, {})
  const FORKED := MARKED.(fork := map[], embryo := {})
  const READY := FORKED.(pt := FORKED.pt[Temp(0) := Word(6, VR)], data := FORKED.data[6 := ZeroPage()])

  lemma AllocFirst()
    ensures Can(NOTHING, Alloc(HEAP, VR, 5)) && Next(NOTHING, Alloc(HEAP, VR, 5)) == ONE_PAGE
  {}

  lemma SpawnOne()
    ensures Can(ONE_PAGE, Spawn(0, 1)) && Next(ONE_PAGE, Spawn(0, 1)) == SPAWNED
  {}

  lemma DupHeap()
    ensures Can(SPAWNED, Dup(HEAP)) && Next(SPAWNED, Dup(HEAP)) == DUPPED
  {
    assert HEAP in SPAWNED.pt && SPAWNED.fork[0] == Forking(1) && SPAWNED.pt[HEAP] == Word(5, VR);
    assert Twin(1, HEAP) == CHILDS;
    assert SPAWNED.pt[CHILDS := Word(5, VRCOW)] == DUPPED.pt;
  }

  lemma MarkHeap()
    ensures Can(DUPPED, Mark(HEAP)) && Next(DUPPED, Mark(HEAP)) == MARKED
  {
    assert HEAP in DUPPED.pt && DUPPED.fork[0] == Half(1, HEAP) && DUPPED.pt[HEAP] == Word(5, VR);
    assert Twin(1, HEAP) == CHILDS;
    assert DUPPED.pt[HEAP := Word(5, VRCOW)] == MARKED.pt && DUPPED.hidden - {CHILDS} == {};
    assert DUPPED.fork[0 := Forking(1)] == MARKED.fork;
  }

  lemma ReleaseOne()
    ensures Can(MARKED, Release(0)) && Next(MARKED, Release(0)) == FORKED
  {
    assert MARKED.fork - {0} == map[] && MARKED.embryo - {1} == {};
  }

  lemma AllocTemp()
    ensures Can(FORKED, Alloc(Temp(0), VR, 6)) && Next(FORKED, Alloc(Temp(0), VR, 6)) == READY
  {}

  lemma ReadyToLose()
    requires Sane(READY)
    ensures Can(READY, Trap(HEAP, 7)) && Settled(READY, 0, Temp(0)) == [] && Temp(0) in Cells(READY)
  {
    assert HEAP in READY.pt && READY.pt[HEAP] == Word(5, VRCOW) && Temp(0) in READY.pt;
  }

  /** From the empty machine a program comes to a fault that takes a page of its own away. */
  lemma TempInUse()
    ensures VmInv(NOTHING) && Enabled(NOTHING, LOSING) && RunAll(NOTHING, LOSING) == READY
    ensures VmInv(READY) && Can(READY, Trap(HEAP, 7)) && Settled(READY, 0, Temp(0)) == [] && Temp(0) in Cells(READY)
  {
    hide Next, Cells, Sane, Uniform, Guarded, HiddenOk, ForkOk, FaultOk, Can, Settled, Temp, Enabled, RunAll;
    Start();
    AllocFirst();
    SpawnOne();
    DupHeap();
    MarkHeap();
    ReleaseOne();
    AllocTemp();
    var a5 := [Alloc(Temp(0), VR, 6)] + [];
    var a4 := [Release(0)] + a5;
    var a3 := [Mark(HEAP)] + a4;
    var a2 := [Dup(HEAP)] + a3;
    OneMore(NOTHING, Alloc(HEAP, VR, 5), ONE_PAGE, [Spawn(0, 1)] + a2);
    OneMore(ONE_PAGE, Spawn(0, 1), SPAWNED, a2);
    OneMore(SPAWNED, Dup(HEAP), DUPPED, a3);
    OneMore(DUPPED, Mark(HEAP), MARKED, a4);
    OneMore(MARKED, Release(0), FORKED, a5);
    OneMore(FORKED, Alloc(Temp(0), VR, 6), READY, []);
    NoMore(READY);
    ReadyToLose();
  }

  lemma NoMore(v: Vm)
    requires VmInv(v)
    ensures Enabled(v, []) && RunAll(v, []) == v
  {}

  /** pgfault on the page shared since the fork, in that program: the page it had at the
      temporary address is gone. */
  method LoseTemp() returns (m: Machine)
    ensures fresh(m) && VmInv(m.v) && Cells(m.v) == Cells(READY) - {Temp(0)} && Temp(0) in Cells(READY)
  {
    TempInUse();
    m := new Machine(READY);
    m.Pgfault(HEAP, 7);
  }

  class Machine {
    var v: Vm

    constructor (v: Vm)
      ensures this.v == v
    {
      this.v := v;
    }

    method Perform(a: Act)
      requires VmInv(v) && Can(v, a)
      modifies this
      ensures VmInv(v) && v == Next(old(v), a)
    {
      StepInv(v, a);
      v := Next(v, a);
    }

    /** user_bcopy of the faulting page to the temporary one. */
    method CopyPage(e: nat)
      requires VmInv(v) && e in v.fault && v.fault[e].Copying? && v.fault[e].done == 0
      modifies this
      ensures VmInv(v) && v.fault == old(v.fault)[e := Copying(old(v.fault[e].k), NWORD)]
      ensures v.pt == old(v.pt) && v.fork == old(v.fork) && v.embryo == old(v.embryo) && Cells(v) == old(Cells(v))
    {
      hide Cells, Uniform, Guarded, HiddenOk, ForkOk;
      var k := v.fault[e].k;
      var i := 0;
      while i < NWORD
        invariant 0 <= i <= NWORD && VmInv(v) && v.fault == old(v.fault)[e := Copying(k, i)]
        invariant v.fork == old(v.fork) && v.embryo == old(v.embryo)
        invariant v.pt == old(v.pt) && Cells(v) == old(Cells(v))
      {
        assert FaultAt(v, e);
        QuietStep(v, Copy(e));
        Perform(Copy(e));
        i := i + 1;
      }
    }

    /** pgfault's last two calls: the copy takes the place of the faulting page. */
    method Switch(e: nat)
      requires VmInv(v) && e in v.fault && v.fault[e].Copying? && v.fault[e].done == NWORD && Temp(e) in v.pt
      modifies this
      ensures VmInv(v) && v.fault == old(v.fault) - {e} && v.fork == old(v.fork) && v.embryo == old(v.embryo)
      ensures v.pt == old(v.pt)[old(v.fault[e].k) := old(v.pt[Temp(e)])] - {Temp(e)} && Cells(v) == old(Cells(v))
    {
      hide Cells, Uniform, Guarded, HiddenOk, ForkOk, FaultOk, Sane;
      QuietStep(v, Remap(e));
      Perform(Remap(e));
      QuietStep(v, Return(e));
      Perform(Return(e));
    }

    /** pgfault for a store to the copy-on-write page `k`: afterwards the environment has its
        own writable copy on the fresh page `p`, and everything any program can see is as it
        was, except that whatever was mapped at the temporary page is gone. So memory is kept
        if and only if nothing was mapped there; a fault on that very page loses the page. */
    method Pgfault(k: Key, p: nat)
      requires VmInv(v) && Can(v, Trap(k, p)) && Settled(v, k.d, Temp(k.d)) == []
      modifies this
      ensures VmInv(v) && v.fault == old(v.fault) && v.fork == old(v.fork) && v.embryo == old(v.embryo)
      ensures Cells(v) == old(Cells(v)) - {Temp(k.d)}
      ensures Cells(v) == old(Cells(v)) <==> Temp(k.d) !in old(v.pt)
      ensures k == Temp(k.d) ==> k !in v.pt
      ensures k != Temp(k.d) ==> k in v.pt && Writable(v.pt[k]) && v.pt[k] == Word(p, old(v.pt[k].fl).(cow := false))
                                 && forall j :: j in v.pt && j != k ==> v.pt[j].pfn != p
    {
      hide Cells, Sane, Uniform, Guarded, HiddenOk, ForkOk, FaultOk, Settle, Next, Can;
      var e := k.d;
      TrapEffect(v, k, p);
      Perform(Trap(k, p));
      CopyPage(e);
      Switch(e);
    }

    /** duppage for one page of a forking parent: the child's page becomes what the parent's
        is, nothing else changes for any program. */
    method Duppage(k: Key)
      requires VmInv(v) && Can(v, Dup(k))
      modifies this
      ensures VmInv(v) && v.fork == old(v.fork) && v.fault == old(v.fault) && v.embryo == old(v.embryo)
      ensures k in old(Cells(v)) && Cells(v) == old(Cells(v))[Twin(v.fork[k.d].child, k) := old(Cells(v))[k]]
      ensures var w := old(v.pt[k]);
              var twin := Twin(v.fork[k.d].child, k);
              if !w.fl.r && !w.fl.cow then v.pt == old(v.pt)[twin := w]
              else v.pt == old(v.pt)[twin := SharedWord(w)][k := SharedWord(w)]
      ensures forall q :: Fresh(old(v), q) ==> Fresh(v, q)
    {
      hide Cells, Sane, Uniform, Guarded, HiddenOk, ForkOk, FaultOk, Settle, Effects, Apply, Next;
      ghost var u := v;
      var w := v.pt[k];
      ghost var n := Next(u, Dup(k));
      DupEffect(u, n, k);
      DupTables(u, n, k);
      Perform(Dup(k));
      if w.fl.r || w.fl.cow {
        MarkEffect(u, n, k);
        MarkTables(u, n, k);
        Perform(Mark(k));
      }
    }

    /** fork: the child sees on every page what the parent saw, and zeros on its exception
        stack, for which `p` is the page; nobody else sees any difference. */
    method Fork(e: nat, c: nat, p: nat)
      requires VmInv(v) && Can(v, Spawn(e, c)) && Fresh(v, p)
      modifies this
      ensures VmInv(v) && v.fork == old(v.fork) && v.fault == old(v.fault) && v.embryo == old(v.embryo)
      ensures Cells(v) == Snapshot(old(Cells(v)), e, c, UTOPX, 0)[Key(c, XSTKX, XSTKT) := Private(ZeroPage(), true)]
    {
      hide Cells, Sane, Uniform, Guarded, HiddenOk, ForkOk, FaultOk, Settle, Effects, Apply, Next, Snapshot;
      ghost var m := Cells(v);
      SpawnEffect(v, e, c);
      NoChild(v, c);
      SnapshotStart(m, e, c);
      Perform(Spawn(e, c));
      var x := 0;
      while x < UTOPX
        invariant 0 <= x <= UTOPX && VmInv(v) && Cells(v) == Snapshot(m, e, c, x, 0) && Fresh(v, p)
        invariant v.fork == old(v.fork)[e := Forking(c)] && v.fault == old(v.fault) && v.embryo == old(v.embryo) + {c}
      {
        DupRow(e, c, x, p, m);
        SnapshotRow(m, e, c, x);
        x := x + 1;
      }
      StackEffect(v, e, p);
      Perform(Stack(e, p));
      ReleaseEffect(v, e);
      Perform(Release(e));
    }

    method DupRow(e: nat, c: nat, x: nat, p: nat, ghost m: map<Key, Cell>)
      requires VmInv(v) && e in v.fork && v.fork[e] == Forking(c) && e !in v.fault && Fresh(v, p)
      requires e != c && Cells(v) == Snapshot(m, e, c, x, 0) && forall k :: k in m ==> k.d != c
      modifies this
      ensures VmInv(v) && v.fork == old(v.fork) && v.fault == old(v.fault) && v.embryo == old(v.embryo)
      ensures Fresh(v, p) && Cells(v) == Snapshot(m, e, c, x, NWORD)
    {
      hide Cells, Sane, Uniform, Guarded, HiddenOk, FaultOk, Settle, Effects, Apply, Next, Snapshot, InChild, Copied, Fresh;
      var t := 0;
      while t < NWORD
        invariant 0 <= t <= NWORD && VmInv(v) && Cells(v) == Snapshot(m, e, c, x, t) && Fresh(v, p)
        invariant v.fork == old(v.fork) && v.fault == old(v.fault) && v.embryo == old(v.embryo)
      {
        var k := Key(e, x, t);
        SnapshotStep(m, e, c, x, t);
        OwnSeen(v, k);
        if !(x == XSTKX && t == XSTKT) && k in v.pt {
          Duppage(k);
        }
        t := t + 1;
      }
    }
  }
}
