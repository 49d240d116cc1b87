/** The reference model of memory after fork: every environment owns a private copy of each
    of its pages, LIBRARY pages apart, and a copy is made outright. `Simulates` shows the
    copy-on-write machine indistinguishable from it, under every interleaving. */
module CowSpec {
  import opened Mmu
  import opened Pmap
  import opened Cow

  /** What a virtual page is to a program: its own words, or a page shared on purpose; and
      whether it may write them. */
  datatype Cell = Private(words: seq<Word>, w: bool) | Shared(page: nat, w: bool)

  datatype Model = Model(cells: map<Key, Cell>, shared: map<nat, seq<Word>>)

  datatype Effect =
    | Poke(k: Key, off: nat, w: Word)
    | Zeros(k: Key, p: nat, lib: bool, r: bool)
    | Clone(from: Key, to: Key)
    | Forget(k: Key)
    | ForgetAll(e: nat)

  function Put(ws: seq<Word>, off: nat, w: Word): seq<Word> {
    if off < |ws| then ws[off := w] else ws
  }

  function Apply(m: Model, f: Effect): Model {
    match f
    case Poke(k, off, w) =>
      if k !in m.cells then m
      else (match m.cells[k]
            case Private(ws, r) => Model(m.cells[k := Private(Put(ws, off, w), r)], m.shared)
            case Shared(p, r) =>
              if p in m.shared then Model(m.cells, m.shared[p := Put(m.shared[p], off, w)]) else m)
    case Zeros(k, p, lib, r) =>
      if lib then Model(m.cells[k := Shared(p, r)], m.shared[p := ZeroPage()])
      else Model(m.cells[k := Private(ZeroPage(), r)], m.shared)
    case Clone(a, b) => if a in m.cells then Model(m.cells[b := m.cells[a]], m.shared) else m
    case Forget(k) => Model(m.cells - {k}, m.shared)
    case ForgetAll(e) => Model(map k | k in m.cells && k.d != e :: m.cells[k], m.shared)
  }

  function ApplyAll(m: Model, fs: seq<Effect>): Model
    decreases |fs|
  {
    if fs == [] then m else ApplyAll(Apply(m, fs[0]), fs[1..])
  }

  /** A parent half way through duplicating page `k` gives the child its copy when it leaves
      that state: by marking its own mapping, or by losing the page. */
  function Settled(v: Vm, e: nat, k: Key): seq<Effect> {
    if e in v.fork && v.fork[e].Half? && v.fork[e].k == k then [Clone(k, Twin(v.fork[e].child, k))] else []
  }

  /** What each step means in the reference model. The steps of pgfault mean nothing beyond
      the loss of the temporary page. */
  function Effects(v: Vm, a: Act): seq<Effect>
    requires Can(v, a)
  {
    match a
    case Store(k, off, w) => [Poke(k, off, w)]
    case Alloc(k, fl, p) => [Zeros(k, p, fl.lib, fl.r)]
    case Unmap(k) => [Forget(k)]
    case Pageout(k, p) => [Zeros(k, p, false, true)]
    case Trap(k, _) => Settled(v, k.d, Temp(k.d)) + [Forget(Temp(k.d))]
    case Copy(_) => []
    case Remap(_) => []
    case Return(_) => []
    case Spawn(_, _) => []
    case Dup(k) =>
      var twin := Twin(v.fork[k.d].child, k);
      if Writable(v.pt[k]) && !v.pt[k].fl.lib then [Forget(twin)] else [Clone(k, twin)]
    case Mark(k) => Settled(v, k.d, k)
    case Stack(e, p) => [Zeros(Key(v.fork[e].child, XSTKX, XSTKT), p, false, true)]
    case Release(_) => []
    case Exit(e) => (if e in v.fork && v.fork[e].Half? then Settled(v, e, v.fork[e].k) else []) + [ForgetAll(e)]
  }

  function CellOf(v: Vm, k: Key): Cell
    requires k in v.pt && v.pt[k].pfn in v.data
  {
    if v.pt[k].fl.lib then Shared(v.pt[k].pfn, v.pt[k].fl.r) else Private(v.data[v.pt[k].pfn], v.pt[k].fl.r)
  }

  ghost function Cells(v: Vm): map<Key, Cell>
    requires Sane(v)
  {
    map k | k in v.pt && k !in v.hidden :: CellOf(v, k)
  }

  ghost predicate Seen(v: Vm, k: Key) { k in v.pt && k !in v.hidden }

  ghost predicate Sim(v: Vm, m: Model)
    requires Sane(v)
  {
    && m.cells == Cells(v)
    && forall j :: Seen(v, j) && v.pt[j].fl.lib ==>
         v.pt[j].pfn in m.shared && m.shared[v.pt[j].pfn] == v.data[v.pt[j].pfn]
  }

  // ---------- comparing what can be seen before and after ----------

  /** `k` looks the same in `n` as in `v`. */
  ghost predicate Kept(v: Vm, n: Vm, k: Key)
    requires Sane(v) && Sane(n)
  {
    (Seen(v, k) <==> Seen(n, k)) && (Seen(v, k) ==>
      n.pt[k].pfn == v.pt[k].pfn && n.pt[k].fl.lib == v.pt[k].fl.lib && n.pt[k].fl.r == v.pt[k].fl.r
      && n.data[n.pt[k].pfn] == v.data[v.pt[k].pfn])
  }

  lemma SimKept(v: Vm, n: Vm, m: Model)
    requires Sane(v) && Sane(n) && Sim(v, m) && forall k :: Kept(v, n, k)
    ensures Sim(n, m)
  {
    forall k
      ensures (Seen(n, k) <==> k in m.cells) && (Seen(n, k) ==> CellOf(n, k) == m.cells[k])
      ensures Seen(n, k) && n.pt[k].fl.lib ==> n.pt[k].pfn in m.shared && m.shared[n.pt[k].pfn] == n.data[n.pt[k].pfn]
    {
      assert Kept(v, n, k);
    }
    assert m.cells == Cells(n);
  }

  /** The same, but for one page, which the model changes too. */
  lemma SimButOne(v: Vm, n: Vm, m: Model, k: Key, r: Model)
    requires Sane(v) && Sane(n) && Sim(v, m) && forall j :: j != k ==> Kept(v, n, j)
    requires r.cells == if Seen(n, k) then m.cells[k := CellOf(n, k)] else m.cells - {k}
    requires forall j :: j != k && Seen(v, j) && v.pt[j].fl.lib ==>
               v.pt[j].pfn in r.shared && r.shared[v.pt[j].pfn] == v.data[v.pt[j].pfn]
    requires Seen(n, k) && n.pt[k].fl.lib ==> n.pt[k].pfn in r.shared && r.shared[n.pt[k].pfn] == n.data[n.pt[k].pfn]
    ensures Sim(n, r)
  {
    forall j | j != k
      ensures (Seen(n, j) <==> j in m.cells) && (Seen(n, j) ==> CellOf(n, j) == m.cells[j])
      ensures Seen(n, j) && n.pt[j].fl.lib ==> n.pt[j].pfn in r.shared && r.shared[n.pt[j].pfn] == n.data[n.pt[j].pfn]
    {
      assert Kept(v, n, j);
    }
    assert r.cells == Cells(n);
  }

  lemma ApplyOne(m: Model, f: Effect)
    ensures ApplyAll(m, [f]) == Apply(m, f)
  {
    assert ApplyAll(Apply(m, f), []) == Apply(m, f);
  }

  lemma ApplyTwo(m: Model, f: Effect, g: Effect)
    ensures ApplyAll(m, [f, g]) == Apply(Apply(m, f), g)
  {
    assert [f, g][1..] == [g];
    ApplyOne(Apply(m, f), g);
  }

  // ---------- step by step ----------

  /** A store through a private page is seen nowhere else: any other mapping of the page is
      hidden. */
  lemma StorePrivate(v: Vm, a: Act, j: Key)
    requires VmInv(v) && Can(v, a) && a.Store? && Sane(Next(v, a)) && !v.pt[a.k].fl.lib && j != a.k
    ensures Seen(v, a.k) && Kept(v, Next(v, a), j)
  {
    hide FaultOk, ForkOk;
  }

  lemma SimStore(v: Vm, m: Model, a: Act)
    requires VmInv(v) && Can(v, a) && a.Store? && Sim(v, m) && Sane(Next(v, a))
    ensures Sim(Next(v, a), Apply(m, Poke(a.k, a.off, a.w)))
  {
    hide FaultOk, ForkOk, Guarded;
    var n := Next(v, a);
    var r := Apply(m, Poke(a.k, a.off, a.w));
    if v.pt[a.k].fl.lib {
      assert Seen(v, a.k) && a.k in m.cells;
      assert r.cells == Cells(n);
    } else {
      forall j | j != a.k ensures Kept(v, n, j) { StorePrivate(v, a, j); }
      assert Seen(v, a.k) && a.k in m.cells;
      SimButOne(v, n, m, a.k, r);
    }
  }

  lemma SimZeros(v: Vm, n: Vm, m: Model, k: Key, fl: Flags, p: nat)
    requires Sane(v) && Sane(n) && Sim(v, m) && Fresh(v, p) && n.pt == v.pt[k := Word(p, fl)]
    requires n.data == v.data[p := ZeroPage()] && n.hidden == v.hidden && k !in v.hidden
    ensures Sim(n, Apply(m, Zeros(k, p, fl.lib, fl.r)))
  {
    var r := Apply(m, Zeros(k, p, fl.lib, fl.r));
    SimButOne(v, n, m, k, r);
  }

  lemma SimForget(v: Vm, n: Vm, m: Model, k: Key)
    requires Sane(v) && Sane(n) && Sim(v, m) && !Seen(n, k)
    requires forall j :: j != k ==> Kept(v, n, j)
    ensures Sim(n, Apply(m, Forget(k)))
  {
    SimButOne(v, n, m, k, Apply(m, Forget(k)));
  }

  lemma SimClone(v: Vm, n: Vm, m: Model, from: Key, to: Key)
    requires Sane(v) && Sane(n) && Sim(v, m) && Seen(v, from) && Seen(n, to) && from != to
    requires forall j :: j != to ==> Kept(v, n, j)
    requires CellOf(n, to) == CellOf(v, from) && n.data[n.pt[to].pfn] == v.data[v.pt[from].pfn]
    ensures Sim(n, Apply(m, Clone(from, to)))
  {
    SimButOne(v, n, m, to, Apply(m, Clone(from, to)));
  }

  /** Leaving the half-way state gives the child its page. */
  lemma SimSettle(v: Vm, m: Model, e: nat, k: Key)
    requires VmInv(v) && Sim(v, m)
    ensures Sane(Settle(v, e, k)) && Sim(Settle(v, e, k), ApplyAll(m, Settled(v, e, k)))
  {
    hide FaultOk, Guarded, Uniform, HiddenOk;
    var n := Settle(v, e, k);
    if e in v.fork && v.fork[e].Half? && v.fork[e].k == k {
      var twin := Twin(v.fork[e].child, k);
      assert HalfOk(v, e, v.fork[e].child, k);
      ApplyOne(m, Clone(k, twin));
      SimClone(v, n, m, k, twin);
    }
  }

  lemma TrapAfterSettle(v: Vm, a: Act)
    requires VmInv(v) && Can(v, a) && a.Trap? && Sane(Next(v, a)) && Sane(Settle(v, a.k.d, Temp(a.k.d)))
    ensures var t := Temp(a.k.d); !Seen(Next(v, a), t) && forall j :: j != t ==> Kept(Settle(v, a.k.d, t), Next(v, a), j)
  {
    hide FaultOk, Guarded, Uniform, ForkOk;
  }

  lemma SimTrap(v: Vm, m: Model, a: Act)
    requires VmInv(v) && Can(v, a) && a.Trap? && Sim(v, m) && Sane(Next(v, a))
    ensures Sim(Next(v, a), ApplyAll(m, Effects(v, a)))
  {
    hide FaultOk, Guarded, Uniform, ForkOk, HiddenOk, Sane, Sim, Apply, Kept;
    var e := a.k.d;
    var t := Temp(e);
    SimSettle(v, m, e, t);
    var fs := Settled(v, e, t);
    TrapAfterSettle(v, a);
    SimForget(Settle(v, e, t), Next(v, a), ApplyAll(m, fs), t);
    if fs == [] {
      assert Effects(v, a) == [Forget(t)];
      ApplyOne(m, Forget(t));
    } else {
      assert Effects(v, a) == [fs[0], Forget(t)];
      ApplyOne(m, fs[0]);
      ApplyTwo(m, fs[0], Forget(t));
    }
  }

  lemma SimCopy(v: Vm, m: Model, a: Act)
    requires VmInv(v) && Can(v, a) && a.Copy? && Sim(v, m) && Sane(Next(v, a))
    ensures Sim(Next(v, a), m)
  {
    hide Guarded, Uniform, ForkOk;
    assert FaultAt(v, a.e);
    SimKept(v, Next(v, a), m);
  }

  lemma SimRemap(v: Vm, m: Model, a: Act)
    requires VmInv(v) && Can(v, a) && a.Remap? && Sim(v, m) && Sane(Next(v, a))
    ensures Sim(Next(v, a), m)
  {
    hide Guarded, Uniform, ForkOk;
    assert FaultAt(v, a.e);
    var n := Next(v, a);
    var k := v.fault[a.e].k;
    if k == Temp(a.e) {
      SimKept(v, n, m);
    } else {
      assert v.data[v.pt[k].pfn] == v.data[v.pt[Temp(a.e)].pfn];
      assert k !in v.hidden;
      assert Seen(v, k) && CellOf(n, k) == CellOf(v, k);
      SimButOne(v, n, m, k, m);
    }
  }

  lemma SimReturn(v: Vm, m: Model, a: Act)
    requires VmInv(v) && Can(v, a) && a.Return? && Sim(v, m) && Sane(Next(v, a))
    ensures Sim(Next(v, a), m)
  {
    hide Guarded, Uniform, ForkOk;
    assert FaultAt(v, a.e);
    SimKept(v, Next(v, a), m);
  }

  /** duppage's call for the child is seen at most at the child's page. */
  lemma DupKept(v: Vm, a: Act, j: Key)
    requires VmInv(v) && Can(v, a) && a.Dup? && Sane(Next(v, a)) && j != Twin(v.fork[a.k.d].child, a.k)
    ensures Kept(v, Next(v, a), j)
  {
    hide FaultOk, Guarded, Uniform, HiddenOk, ForkOk;
  }

  lemma DupSeen(v: Vm, a: Act, twin: Key)
    requires VmInv(v) && Can(v, a) && a.Dup? && Sane(Next(v, a)) && twin == Twin(v.fork[a.k.d].child, a.k)
    ensures Seen(v, a.k) && a.k != twin
    ensures Seen(Next(v, a), twin) <==> !(Writable(v.pt[a.k]) && !v.pt[a.k].fl.lib)
    ensures Seen(Next(v, a), twin) ==> CellOf(Next(v, a), twin) == CellOf(v, a.k)
    ensures Seen(Next(v, a), twin) ==> Next(v, a).data == v.data && Next(v, a).pt[twin].pfn == v.pt[a.k].pfn
  {
    hide FaultOk, Guarded, Uniform;
    assert a.k.d !in v.embryo && twin.d in v.embryo && a.k !in v.hidden && twin !in v.hidden;
  }

  lemma SimDup(v: Vm, m: Model, a: Act)
    requires VmInv(v) && Can(v, a) && a.Dup? && Sim(v, m) && Sane(Next(v, a))
    ensures Sim(Next(v, a), ApplyAll(m, Effects(v, a)))
  {
    var n := Next(v, a);
    var twin := Twin(v.fork[a.k.d].child, a.k);
    var f := if Writable(v.pt[a.k]) && !v.pt[a.k].fl.lib then Forget(twin) else Clone(a.k, twin);
    assert Effects(v, a) == [f];
    ApplyOne(m, f);
    DupSeen(v, a, twin);
    hide FaultOk, Guarded, Uniform, HiddenOk, ForkOk, Sane, Sim, Kept, Seen, CellOf, Apply, ApplyAll, Effects, Next;
    forall j | j != twin ensures Kept(v, n, j) { DupKept(v, a, j); }
    if f.Forget? { SimForget(v, n, m, twin); } else { SimClone(v, n, m, a.k, twin); }
  }

  lemma MarkKept(v: Vm, a: Act, u: Vm, j: Key)
    requires VmInv(v) && Can(v, a) && a.Mark? && u == Settle(v, a.k.d, a.k) && Sane(u) && Sane(Next(v, a))
    ensures Kept(u, Next(v, a), j)
  {
    hide FaultOk, Guarded, Uniform, ForkOk, HiddenOk;
  }

  lemma SimMark(v: Vm, m: Model, a: Act)
    requires VmInv(v) && Can(v, a) && a.Mark? && Sim(v, m) && Sane(Next(v, a))
    ensures Sim(Next(v, a), ApplyAll(m, Effects(v, a)))
  {
    assert Effects(v, a) == Settled(v, a.k.d, a.k);
    SimSettle(v, m, a.k.d, a.k);
    hide FaultOk, Guarded, Uniform, ForkOk, HiddenOk, Sane, Sim, Kept, Next, Effects;
    forall j ensures Kept(Settle(v, a.k.d, a.k), Next(v, a), j) { MarkKept(v, a, Settle(v, a.k.d, a.k), j); }
    SimKept(Settle(v, a.k.d, a.k), Next(v, a), ApplyAll(m, Settled(v, a.k.d, a.k)));
  }

  lemma SimForgetAll(v: Vm, n: Vm, m: Model, e: nat)
    requires Sane(v) && Sane(n) && Sim(v, m)
    requires n.pt == (map k | k in v.pt && k.d != e :: v.pt[k]) && n.data == v.data
    requires n.hidden == (set h | h in v.hidden && h.d != e)
    ensures Sim(n, Apply(m, ForgetAll(e)))
  {
    var r := Apply(m, ForgetAll(e));
    assert r.cells == Cells(n);
  }

  lemma SimExit(v: Vm, m: Model, a: Act)
    requires VmInv(v) && Can(v, a) && a.Exit? && Sim(v, m) && Sane(Next(v, a))
    ensures Sim(Next(v, a), ApplyAll(m, Effects(v, a)))
  {
    hide FaultOk, Guarded, Uniform, ForkOk, HiddenOk, Sane, Sim, Apply;
    var e := a.e;
    var n := Next(v, a);
    if e in v.fork && v.fork[e].Half? {
      var k := v.fork[e].k;
      SimSettle(v, m, e, k);
      var f := Settled(v, e, k)[0];
      assert Settled(v, e, k) == [f] && Effects(v, a) == [f, ForgetAll(e)];
      ApplyOne(m, f);
      ApplyTwo(m, f, ForgetAll(e));
      SimForgetAll(Settle(v, e, k), n, ApplyAll(m, [f]), e);
    } else {
      assert Effects(v, a) == [ForgetAll(e)];
      ApplyOne(m, ForgetAll(e));
      SimForgetAll(v, n, m, e);
    }
  }

  /** Each step does to what programs can see exactly what the reference model does. */
  lemma Simulates(v: Vm, m: Model, a: Act)
    requires VmInv(v) && Can(v, a) && Sim(v, m)
    ensures VmInv(Next(v, a)) && Sim(Next(v, a), ApplyAll(m, Effects(v, a)))
  {
    hide Sane, Uniform, Guarded, HiddenOk, ForkOk, FaultOk, Sim, Apply, ApplyAll, Kept;
    StepInv(v, a);
    match a
    case Store(k, off, w) => ApplyOne(m, Poke(k, off, w)); SimStore(v, m, a);
    case Alloc(k, fl, p) =>
      ApplyOne(m, Zeros(k, p, fl.lib, fl.r));
      NotHidden(v, k);
      SimZeros(v, Next(v, a), m, k, fl, p);
    case Unmap(k) => ApplyOne(m, Forget(k)); UnmapKept(v, a); SimForget(v, Next(v, a), m, k);
    case Pageout(k, p) =>
      ApplyOne(m, Zeros(k, p, false, true));
      MappedHidden(v, k);
      SimZeros(v, Next(v, a), m, k, VR, p);
    case Trap(_, _) => SimTrap(v, m, a);
    case Copy(_) => SimCopy(v, m, a); ApplyNone(m);
    case Remap(_) => SimRemap(v, m, a); ApplyNone(m);
    case Return(_) => SimReturn(v, m, a); ApplyNone(m);
    case Spawn(_, _) => SimQuiet(v, m, a); ApplyNone(m);
    case Release(_) => SimQuiet(v, m, a); ApplyNone(m);
    case Dup(_) => SimDup(v, m, a);
    case Mark(_) => SimMark(v, m, a);
    case Stack(e, p) =>
      var k := Key(v.fork[e].child, XSTKX, XSTKT);
      ApplyOne(m, Zeros(k, p, false, true));
      ChildNotHidden(v, e, k);
      SimZeros(v, Next(v, a), m, k, VR, p);
    case Exit(_) => SimExit(v, m, a);
  }

  lemma ApplyNone(m: Model)
    ensures ApplyAll(m, []) == m
  {}

  lemma SimQuiet(v: Vm, m: Model, a: Act)
    requires VmInv(v) && Can(v, a) && (a.Spawn? || a.Release?) && Sim(v, m) && Sane(Next(v, a))
    ensures Sim(Next(v, a), m)
  {
    hide FaultOk, ForkOk, Guarded, Uniform, HiddenOk;
    SimKept(v, Next(v, a), m);
  }

  lemma NotHidden(v: Vm, k: Key)
    requires VmInv(v) && Idle(v, k.d)
    ensures k !in v.hidden
  {}

  lemma ChildNotHidden(v: Vm, e: nat, k: Key)
    requires VmInv(v) && e in v.fork && v.fork[e].Forking? && k.d == v.fork[e].child
    ensures k !in v.hidden
  {}

  lemma MappedHidden(v: Vm, k: Key)
    requires VmInv(v) && k !in v.pt && k.d !in v.embryo
    ensures k !in v.hidden
  {
    if k.d in v.fault { assert FaultAt(v, k.d); }
  }

  lemma UnmapKept(v: Vm, a: Act)
    requires VmInv(v) && Can(v, a) && a.Unmap? && Sane(Next(v, a))
    ensures !Seen(Next(v, a), a.k) && forall j :: j != a.k ==> Kept(v, Next(v, a), j)
  {}
}
