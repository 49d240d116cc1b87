/** Whole runs of the kernel: what a program reads through the two-level page tables is what
    the model of private copies holds, after any sequence of system calls, traps and accesses. */
module KernelRuns {
  import opened Wrappers
  import opened Mmu
  import opened Pmap
  import opened Space
  import opened MemCalls
  import opened Cow
  import opened CowSpec
  import opened CowRuns
  import opened CowKernel
  import opened DirSlots

  /** A step of the copy-on-write machine, or something that changes no mapping and takes no address
      space away: a call that fails, an address space made outside fork. */
  datatype Step = Do(a: Act) | Aside

  /** The kernel goes from `s` to `r` by the step; `boot` is its own page directory. */
  ghost predicate Serves(s: State, boot: seq<Word>, v: Vm, step: Step, r: State)
    requires Inv(s) && VmInv(v) && |boot| == NWORD
  {
    match step
    case Aside =>
      && Inv(r) && KeepsData(s, r) && Flat(r) == Flat(s)
      && s.dirs <= r.dirs && SlotsKept(s, r) && forall d :: d in r.dirs && d !in s.dirs ==> LikeBoot(r.mem[d], boot, d)
    case Do(a) => Can(v, a) && Carries(s, boot, v, a, r)
  }

  ghost predicate Carries(s: State, boot: seq<Word>, v: Vm, a: Act, r: State)
    requires Inv(s) && VmInv(v) && |boot| == NWORD && Can(v, a)
  {
    match a
    case Spawn(_, c) => SetupVm(s, boot) == Some((c, r))
    case Release(_) => r == s
    case Exit(e) => Freed(s, e, r)
    case _ => Touches(a) && TakesHead(s, a) && Sound(RequestOf(v, a)) && Serve(s, RequestOf(v, a)) == Some(r)
  }

  function Acts(steps: seq<Step>): seq<Act> {
    if steps == [] then [] else (if steps[0].Do? then [steps[0].a] else []) + Acts(steps[1..])
  }

  ghost function After(v: Vm, step: Step): Vm
    requires VmInv(v) && (step.Do? ==> Can(v, step.a))
  {
    if step.Do? then Next(v, step.a) else v
  }

  /** `trace` are the kernel's states along the run. */
  ghost predicate Served(trace: seq<State>, boot: seq<Word>, v: Vm, steps: seq<Step>)
    requires VmInv(v) && |boot| == NWORD
    decreases |steps|
  {
    && |trace| == |steps| + 1 && Inv(trace[0])
    && (steps != [] ==>
          && Serves(trace[0], boot, v, steps[0], trace[1])
          && (AfterInv(v, steps[0]); Served(trace[1..], boot, After(v, steps[0]), steps[1..])))
  }

  lemma AfterInv(v: Vm, step: Step)
    requires VmInv(v) && (step.Do? ==> Can(v, step.a))
    ensures VmInv(After(v, step))
  {
    if step.Do? { StepInv(v, step.a); }
  }

  /** One step of the kernel keeps its tables and memory in step with the machine. */
  lemma ServesRel(s: State, boot: seq<Word>, v: Vm, step: Step, r: State)
    requires Inv(s) && VmInv(v) && |boot| == NWORD && Rel(s, v) && Serves(s, boot, v, step, r)
    ensures Inv(r) && Rel(r, After(v, step))
  {
    hide Uniform, Guarded, HiddenOk, ForkOk, FaultOk, Inv, Rel, Flat, Freed, Next, Serve, RequestOf, KeepsData, SetupVm, SlotsKept, LikeBoot;
    match step
    case Aside => AsideRel(s, v, r);
    case Do(a) =>
      match a
      case Spawn(e, c) =>
        SpawnRealised(s, v, boot, e, c, r);
      case Release(e) => ReleaseRel(s, v, e);
      case Exit(e) => ExitRealised(s, v, e, r); FreedInv(s, e, r);
      case _ => Realises(s, v, a); GivesRel(r, Next(v, a));
  }

  lemma GivesRel(r: State, n: Vm)
    requires Gives(Some(r), n)
    ensures Inv(r) && Rel(r, n)
  {}

  lemma FreedInv(s: State, e: nat, r: State)
    requires Freed(s, e, r)
    ensures Inv(r)
  {}

  lemma AsideRel(s: State, v: Vm, r: State)
    requires Inv(s) && Rel(s, v) && Inv(r) && KeepsData(s, r) && Flat(r) == Flat(s)
    ensures Rel(r, v)
  {
    RelStays(s, v, r, v);
  }

  lemma ReleaseRel(s: State, v: Vm, e: nat)
    requires Inv(s) && Rel(s, v) && Can(v, Release(e))
    ensures Rel(s, Next(v, Release(e)))
  {
    RelSame(s, v, Next(v, Release(e)));
  }

  /** The steps of the machine along a run of the kernel are a run of the machine. */
  lemma {:induction false} ServedEnabled(trace: seq<State>, boot: seq<Word>, v: Vm, steps: seq<Step>)
    requires VmInv(v) && |boot| == NWORD && Served(trace, boot, v, steps) && Rel(trace[0], v)
    ensures Enabled(v, Acts(steps))
    ensures Inv(trace[|steps|]) && Rel(trace[|steps|], RunAll(v, Acts(steps)))
    decreases |steps|
  {
    hide VmInv, Inv, Rel, Next, Serves, Can;
    if steps != [] {
      ServesCan(trace[0], boot, v, steps[0], trace[1]);
      AfterInv(v, steps[0]);
      ServesRel(trace[0], boot, v, steps[0], trace[1]);
      ServedEnabled(trace[1..], boot, After(v, steps[0]), steps[1..]);
      assert trace[1..][|steps[1..]|] == trace[|steps|];
      if steps[0].Do? {
        assert Acts(steps)[0] == steps[0].a && Acts(steps)[1..] == Acts(steps[1..]);
      } else {
        assert Acts(steps) == Acts(steps[1..]);
      }
    }
  }

  lemma ServesCan(s: State, boot: seq<Word>, v: Vm, step: Step, r: State)
    requires Inv(s) && VmInv(v) && |boot| == NWORD && Serves(s, boot, v, step, r)
    ensures step.Do? ==> Can(v, step.a)
  {}

  /** Isolation, through the hardware: after every run of the kernel, a load that do_refill
      translates returns what the model of private copies holds there. */
  lemma KernelIsolation(trace: seq<State>, boot: seq<Word>, v: Vm, m: Model, steps: seq<Step>, k: Key, off: nat)
    requires VmInv(v) && |boot| == NWORD && Sim(v, m) && Served(trace, boot, v, steps) && Rel(trace[0], v)
    ensures Enabled(v, Acts(steps)) && Inv(trace[|steps|])
    ensures var s, n := trace[|steps|], RunAll(v, Acts(steps));
            k.d in s.dirs && k.x < UTOPX && k.t < NWORD && off < NWORD && k !in n.hidden ==>
              k.d < NPAGE && Translate(s, k.d, k.x, k.t, off) == ModelLoad(ModelAll(m, v, Acts(steps)), k, off)
  {
    ServedEnabled(trace, boot, v, steps);
    Isolation(v, m, Acts(steps), k, off);
    var s, n := trace[|steps|], RunAll(v, Acts(steps));
    if k.d in s.dirs && k.x < UTOPX && k.t < NWORD && off < NWORD { TranslateIsLoad(s, n, k, off); }
  }

  /** Translation through the tables is the load of the flat map. */
  lemma TranslateIsLoad(s: State, v: Vm, k: Key, off: nat)
    requires Inv(s) && Rel(s, v) && VmInv(v) && k.d in s.dirs && k.x < UTOPX && k.t < NWORD && off < NWORD
    ensures k.d < NPAGE && Translate(s, k.d, k.x, k.t, off) == Load(v, k, off)
  {
    LoadFlat(s, k, off);
    hide Uniform, Guarded, HiddenOk, ForkOk, FaultOk, Flat, Translate, Clean, Counted, Distinct, FreeList;
    assert k in v.pt ==> EntryOk(v, k);
  }

  // ---------- where runs start ----------

  /** A kernel in which nothing is mapped corresponds to the machine with nothing in it. */
  lemma Boots(s: State)
    requires Inv(s) && Flat(s) == map[]
    ensures VmInv(NOTHING) && Rel(s, NOTHING) && Sim(NOTHING, Model(map[], map[]))
  {
    Start();
  }

  /** Before the first address space is made nothing is mapped, and every directory, there being none, has
      the kernel's slots. */
  lemma NoSpaces(s: State, boot: seq<Word>, v: Vm)
    requires Inv(s) && s.dirs == {}
    ensures Flat(s) == map[] && Shape(s) && (Housed(s, boot, v) <==> v.embryo == {})
  {
    InvShape(s);
    forall k | k in Flat(s) ensures false { DirKeys(s, k); }
  }

  /** Making an address space and every failing call are asides. */
  lemma SetupAside(s: State, boot: seq<Word>, c: nat, r: State, v: Vm)
    requires Inv(s) && VmInv(v) && |boot| == NWORD && SetupVm(s, boot) == Some((c, r))
    ensures Serves(s, boot, v, Aside, r)
  {
    assert MakesSpace(s, c, r) by { InvShape(s); }
    hide VmInv, Inv, Flat, KeepsData, MakesSpace, SetupVm, SlotsKept, Shape, LikeBoot;
    SpaceFlat(s, c, r);
    SetupLike(s, boot, c, r);
  }

  lemma FailuresAside(s: State, boot: seq<Word>, v: Vm, k: Key, src: Key, fl: Flags)
    requires Inv(s) && VmInv(v) && |boot| == NWORD && Va(k) && Va(src)
    ensures !MemAlloc(s, k, fl).1.Ok? ==> Serves(s, boot, v, Aside, MemAlloc(s, k, fl).0)
    ensures !MemMap(s, src, k, fl).1.Ok? ==> Serves(s, boot, v, Aside, MemMap(s, src, k, fl).0)
    ensures !MemUnmap(s, k).1.Ok? ==> Serves(s, boot, v, Aside, MemUnmap(s, k).0)
  {
    hide VmInv, Inv, MemAlloc, MemMap, MemUnmap, KeepsData, Entries, SlotsKept;
    MemAllocInv(s, k, fl);
    MemMapInv(s, src, k, fl);
    MemUnmapInv(s, k);
    MemAllocSlots(s, k, fl);
    MemMapSlots(s, src, k, fl);
    MemUnmapSlots(s, k);
  }

  // ---------- what every address space has ----------

  /** The kernel's slots in every directory, and an address space for every child being built. */
  ghost predicate Housed(s: State, boot: seq<Word>, v: Vm)
    requires Shape(s)
  {
    Alike(s, boot) && v.embryo <= s.dirs
  }

  lemma AlikeKept(s: State, boot: seq<Word>, r: State)
    requires Shape(s) && Shape(r) && Alike(s, boot) && SlotsKept(s, r)
    requires forall d :: d in r.dirs && d !in s.dirs ==> LikeBoot(r.mem[d], boot, d)
    ensures Alike(r, boot)
  {
    forall d | d in r.dirs && d in s.dirs ensures LikeBoot(r.mem[d], boot, d) { assert LikeBoot(s.mem[d], boot, d); }
  }

  lemma SpawnHoused(s: State, boot: seq<Word>, c: nat, r: State)
    requires Inv(s) && |boot| == NWORD && SetupVm(s, boot) == Some((c, r)) && Shape(s) && Alike(s, boot)
    ensures Shape(r) && Alike(r, boot) && r.dirs == s.dirs + {c}
  {
    hide Inv, SetupVm, SlotsKept, Alike, LikeBoot;
    SetupLike(s, boot, c, r);
    AlikeKept(s, boot, r);
  }

  lemma CallHoused(s: State, v: Vm, a: Act, r: State)
    requires Inv(s) && VmInv(v) && Rel(s, v) && Can(v, a) && Touches(a) && Sound(RequestOf(v, a))
    requires Serve(s, RequestOf(v, a)) == Some(r)
    ensures Shape(s) && Shape(r) && SlotsKept(s, r) && r.dirs == s.dirs
  {
    hide Inv, Flat, MemAlloc, MemMap, MemUnmap, Uniform, Guarded, HiddenOk, ForkOk, FaultOk, Shape, Sane, KeepsData, Entries, SlotsKept;
    InvShape(s);
    var q := RequestOf(v, a);
    if a.Store? {
      StoreSlots(s, a.k, a.off, a.w);
    } else if a.Copy? {
      StoreSlots(s, Temp(a.e), q.off, q.w);
    } else if q.DoAlloc? {
      MemAllocSlots(s, q.k, q.fl);
      MemAllocInv(s, q.k, q.fl);
    } else if q.DoMap? {
      MemMapSlots(s, q.src, q.dst, q.fl);
      MemMapInv(s, q.src, q.dst, q.fl);
    } else {
      MemUnmapSlots(s, q.k);
      MemUnmapInv(s, q.k);
    }
  }

  lemma Embryos(v: Vm, a: Act)
    requires VmInv(v) && Can(v, a)
    ensures Next(v, a).embryo == if a.Spawn? then v.embryo + {a.c} else if a.Release? then v.embryo - {v.fork[a.e].child} else v.embryo
  {
    EmbryosAfter(v, a, Next(v, a));
  }

  lemma ServesHoused(s: State, boot: seq<Word>, v: Vm, step: Step, r: State)
    requires Inv(s) && Shape(s) && VmInv(v) && |boot| == NWORD && Rel(s, v) && Serves(s, boot, v, step, r) && Housed(s, boot, v)
    ensures Shape(r) && Housed(r, boot, After(v, step))
  {
    hide Inv, Rel, Flat, Uniform, Guarded, HiddenOk, ForkOk, FaultOk, Sane, Next, Serve, RequestOf, KeepsData, SetupVm,
         SlotsKept, LikeBoot, Alike, Shape, Entries, Without, Untouched;
    match step
    case Aside => InvShape(r); AlikeKept(s, boot, r);
    case Do(a) =>
      Embryos(v, a);
      match a
      case Spawn(_, c) => SpawnHoused(s, boot, c, r);
      case Release(_) =>
      case Exit(_) => InvShape(r); AlikeKept(s, boot, r);
      case _ => CallHoused(s, v, a, r); AlikeKept(s, boot, r);
  }

  /** After every run every directory has the kernel's slots, and every child being built its address
      space. */
  lemma {:induction false} RunHoused(trace: seq<State>, boot: seq<Word>, v: Vm, steps: seq<Step>)
    requires VmInv(v) && |boot| == NWORD && Served(trace, boot, v, steps) && Rel(trace[0], v)
    requires Shape(trace[0]) && Housed(trace[0], boot, v)
    ensures Enabled(v, Acts(steps)) && Shape(trace[|steps|]) && Housed(trace[|steps|], boot, RunAll(v, Acts(steps)))
    decreases |steps|
  {
    ServedEnabled(trace, boot, v, steps);
    hide VmInv, Inv, Rel, Next, Serves, Can, Housed, Shape;
    if steps != [] {
      ServesCan(trace[0], boot, v, steps[0], trace[1]);
      AfterInv(v, steps[0]);
      ServesRel(trace[0], boot, v, steps[0], trace[1]);
      ServesHoused(trace[0], boot, v, steps[0], trace[1]);
      RunHoused(trace[1..], boot, After(v, steps[0]), steps[1..]);
      assert trace[1..][|steps[1..]|] == trace[|steps|];
      if steps[0].Do? {
        assert Acts(steps)[0] == steps[0].a && Acts(steps)[1..] == Acts(steps[1..]);
      } else {
        assert Acts(steps) == Acts(steps[1..]);
      }
    }
  }

  /** After every run an address above the user's part is translated alike in all address spaces, the two
      windows onto their own tables apart. */
  lemma SameAbove(trace: seq<State>, boot: seq<Word>, v: Vm, steps: seq<Step>, d: nat, e: nat, x: nat, t: nat, off: nat)
    requires VmInv(v) && |boot| == NWORD && Served(trace, boot, v, steps) && Rel(trace[0], v)
    requires Shape(trace[0]) && Housed(trace[0], boot, v)
    requires d in trace[|steps|].dirs && e in trace[|steps|].dirs
    requires UTOPX <= x < NWORD && x != UVPTX && x != VPTX && t < NWORD && off < NWORD
    ensures Shape(trace[|steps|]) && d < NPAGE && e < NPAGE
    ensures Translate(trace[|steps|], d, x, t, off) == Translate(trace[|steps|], e, x, t, off)
  {
    RunHoused(trace, boot, v, steps);
    var s := trace[|steps|];
    assert LikeBoot(s.mem[d], boot, d) && LikeBoot(s.mem[e], boot, e);
    hide Served, VmInv, Inv, Rel;
  }

  /** So fork goes on after every run: duppage's call for the parent is always served, its call for the
      child exactly if the child's table is there or a page is free for it. */
  lemma ForkServed(s: State, boot: seq<Word>, v: Vm, a: Act)
    requires Inv(s) && Shape(s) && VmInv(v) && Rel(s, v) && Housed(s, boot, v) && Can(v, a) && (a.Dup? || a.Mark?)
    requires Touches(a)
    ensures Sound(RequestOf(v, a))
    ensures Serve(s, RequestOf(v, a)).Some?
            <==> (a.Dup? ==> HasTable(s, v.fork[a.k.d].child, a.k.x) || s.free != [])
  {
    hide Inv, Rel, Serve, RequestOf, Sane, Uniform, Guarded, HiddenOk, FaultOk, Alike, HasTable, Shape;
    ServedIff(s, v, a);
  }
}
