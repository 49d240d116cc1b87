/** Whole runs of the copy-on-write machine, and fork and pgfault run from start to end. */
module CowRuns {
  import opened Wrappers
  import opened Mmu
  import opened Pmap
  import opened Cow
  import opened CowSpec

  ghost predicate Enabled(v: Vm, acts: seq<Act>)
    requires VmInv(v)
    decreases |acts|
  {
    acts == [] || (Can(v, acts[0]) && (StepInv(v, acts[0]); Enabled(Next(v, acts[0]), acts[1..])))
  }

  ghost function RunAll(v: Vm, acts: seq<Act>): Vm
    requires VmInv(v) && Enabled(v, acts)
    decreases |acts|
  {
    if acts == [] then v else (StepInv(v, acts[0]); RunAll(Next(v, acts[0]), acts[1..]))
  }

  ghost function ModelAll(m: Model, v: Vm, acts: seq<Act>): Model
    requires VmInv(v) && Enabled(v, acts)
    decreases |acts|
  {
    if acts == [] then m
    else (StepInv(v, acts[0]); ModelAll(ApplyAll(m, Effects(v, acts[0])), Next(v, acts[0]), acts[1..]))
  }

  /** A load, as the hardware performs it and as the model answers it. */
  function Load(v: Vm, k: Key, off: nat): Option<Word> {
    if k in v.pt && v.pt[k].pfn in v.data && off < |v.data[v.pt[k].pfn]| then Some(v.data[v.pt[k].pfn][off]) else None
  }

  function ModelLoad(m: Model, k: Key, off: nat): Option<Word> {
    if k !in m.cells then None
    else match m.cells[k]
      case Private(ws, _) => if off < |ws| then Some(ws[off]) else None
      case Shared(p, _) => if p in m.shared && off < |m.shared[p]| then Some(m.shared[p][off]) else None
  }

  lemma LoadsAgree(v: Vm, m: Model, k: Key, off: nat)
    requires Sane(v) && Sim(v, m) && k !in v.hidden
    ensures Load(v, k, off) == ModelLoad(m, k, off)
  {
    if k in v.pt { assert Seen(v, k) && m.cells[k] == CellOf(v, k); }
  }

  /** What becomes of a program's access to memory: a page with PTE_R and without PTE_COW takes the store, a
      store to a copy-on-write page traps, and touching nothing gets a new page. */
  lemma MemoryAccess(v: Vm, k: Key, off: nat, w: Word, p: nat)
    requires VmInv(v) && k.d !in v.embryo && k.d !in v.fault && off < NWORD && Fresh(v, p)
    ensures Can(v, Store(k, off, w)) <==> k in v.pt && v.pt[k].fl.r && !v.pt[k].fl.cow
    ensures Can(v, Trap(k, p)) <==> k in v.pt && v.pt[k].fl.cow
    ensures Can(v, Pageout(k, p)) <==> k !in v.pt && !(k.x == 0 && k.t < 16)
    ensures k in v.pt && v.pt[k].fl.cow ==> v.pt[k].fl.r
  {
    hide Uniform, Guarded, HiddenOk, ForkOk, FaultOk, Fresh;
    assert k in v.pt ==> EntryOk(v, k);
  }

  /** A word that was stored is what is read there next, and the other words of the page are as before. */
  lemma StoreThenLoad(v: Vm, k: Key, off: nat, w: Word, o: nat)
    requires VmInv(v) && Can(v, Store(k, off, w)) && o < NWORD
    ensures v.pt[k].pfn in v.data && |v.data[v.pt[k].pfn]| == NWORD
    ensures Load(Next(v, Store(k, off, w)), k, o) == if o == off then Some(w) else Load(v, k, o)
  {
    hide Uniform, Guarded, HiddenOk, ForkOk, FaultOk;
    assert EntryOk(v, k);
  }

  /** Isolation. Whatever the environments do and however they are interleaved, each of them
      reads from every page exactly what the model of private copies holds there. */
  lemma {:induction false} Isolation(v: Vm, m: Model, acts: seq<Act>, k: Key, off: nat)
    requires VmInv(v) && Sim(v, m) && Enabled(v, acts)
    ensures var n := RunAll(v, acts);
            VmInv(n) && Sim(n, ModelAll(m, v, acts))
            && (k !in n.hidden ==> Load(n, k, off) == ModelLoad(ModelAll(m, v, acts), k, off))
    decreases |acts|
  {
    hide Uniform, Guarded, HiddenOk, ForkOk, FaultOk, Sim, Next, Effects;
    if acts == [] {
      if k !in v.hidden { LoadsAgree(v, m, k, off); }
    } else {
      StepInv(v, acts[0]);
      Simulates(v, m, acts[0]);
      Isolation(Next(v, acts[0]), ApplyAll(m, Effects(v, acts[0])), acts[1..], k, off);
    }
  }

  const NOTHING := Vm(map[], map[], map[], map[], {}, {})

  /** Before anything runs there is nothing to see, so every run from the start is covered. */
  lemma Start()
    ensures VmInv(NOTHING) && Sim(NOTHING, Model(map[], map[]))
  {
    assert Cells(NOTHING) == map[];
  }

  /** One more step in front of a run. */
  lemma OneMore(v: Vm, a: Act, n: Vm, acts: seq<Act>)
    requires VmInv(v) && Can(v, a) && n == Next(v, a)
    ensures VmInv(n)
    ensures Enabled(n, acts) ==> Enabled(v, [a] + acts) && RunAll(v, [a] + acts) == RunAll(n, acts)
  {
    StepInv(v, a);
    assert ([a] + acts)[1..] == acts;
  }

  function Actor(a: Act): nat {
    match a
    case Store(k, _, _) => k.d
    case Alloc(k, _, _) => k.d
    case Unmap(k) => k.d
    case Pageout(k, _) => k.d
    case Trap(k, _) => k.d
    case Dup(k) => k.d
    case Mark(k) => k.d
    case Copy(e) => e
    case Remap(e) => e
    case Return(e) => e
    case Spawn(e, _) => e
    case Stack(e, _) => e
    case Release(e) => e
    case Exit(e) => e
  }

  /** The effect writes only cells of `e` and `c`. */
  predicate Within(f: Effect, e: nat, c: nat) {
    match f
    case Poke(j, _, _) => j.d == e
    case Zeros(j, _, _, _) => j.d == e || j.d == c
    case Clone(_, j) => j.d == e || j.d == c
    case Forget(j) => j.d == e || j.d == c
    case ForgetAll(d) => d == e
  }

  lemma {:induction false} EffectElsewhere(m: Model, fs: seq<Effect>, e: nat, c: nat, k: Key)
    requires k.d != e && k.d != c && forall i :: 0 <= i < |fs| ==> Within(fs[i], e, c)
    ensures var r := ApplyAll(m, fs); (k in r.cells <==> k in m.cells) && (k in m.cells ==> r.cells[k] == m.cells[k])
    decreases |fs|
  {
    if fs != [] {
      assert Within(fs[0], e, c);
      EffectElsewhere(Apply(m, fs[0]), fs[1..], e, c, k);
    }
  }

  /** No step of one environment changes what another sees on a page that is not shared; only
      the child being built by fork is written by somebody else, its parent. */
  lemma OthersUntouched(v: Vm, a: Act, k: Key)
    requires VmInv(v) && Can(v, a)
    requires k.d != Actor(a) && (Actor(a) in v.fork ==> k.d != v.fork[Actor(a)].child)
    ensures VmInv(Next(v, a))
    ensures k in Cells(Next(v, a)) <==> k in Cells(v)
    ensures k in Cells(v) ==> Cells(Next(v, a))[k] == Cells(v)[k]
  {
    hide Uniform, Guarded, HiddenOk, FaultOk, Cells;
    var shared := map p | p in v.data :: v.data[p];
    var m := Model(Cells(v), shared);
    SimSelf(v, m);
    Simulates(v, m, a);
    var e := Actor(a);
    var c := if e in v.fork then v.fork[e].child else e;
    TargetsOwn(v, a, c);
    EffectElsewhere(m, Effects(v, a), e, c, k);
  }

  lemma SimSelf(v: Vm, m: Model)
    requires Sane(v) && m.cells == Cells(v) && m.shared == v.data
    ensures Sim(v, m)
  {}

  lemma TargetsOwn(v: Vm, a: Act, c: nat)
    requires VmInv(v) && Can(v, a) && c == (if Actor(a) in v.fork then v.fork[Actor(a)].child else Actor(a))
    ensures forall i :: 0 <= i < |Effects(v, a)| ==> Within(Effects(v, a)[i], Actor(a), c)
  {
    hide Uniform, Guarded, HiddenOk, FaultOk, ForkOk, Sane;
  }
}
