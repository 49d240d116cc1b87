/** Environment slots and their generational ids: lib/env.c. */
module EnvIds {
  const LOG2NENV: nat := 10
  const NENV: nat := 1024
  const ID_STEP: nat := 2048           // 1 << (1 + LOG2NENV)
  const WORD: nat := 0x1_0000_0000
  const GENERATIONS: nat := 0x20_0000  // WORD / ID_STEP: where the counter part of an id wraps

  datatype Status = Free | Runnable | NotRunnable

  datatype Env = Env(status: Status, id: nat, parent: nat, runs: nat)

  /** The envs array, env_free_list and mkenvid's static counter. */
  datatype Table = Table(envs: seq<Env>, free: seq<nat>, next: nat)

  datatype Lookup = Found(i: nat) | BadEnv

  function Envx(envid: nat): (i: nat)
    ensures i < NENV
  {
    envid % NENV
  }

  /** The id that the counter's n-th increment gives slot i, as a 32-bit word. */
  function Id(n: nat, i: nat): nat { (n * ID_STEP) % WORD + i }

  // ---------- the operations on values ----------

  function Init(envs: seq<Env>): Table
    requires |envs| == NENV
  {
    Table(seq(NENV, i requires 0 <= i < NENV => envs[i].(status := Free)), seq(NENV, i => i), 0)
  }

  /** The slot env_alloc takes, if there is one, and the new table. */
  function Alloc(t: Table, parent: nat): (r: (Table, Lookup))
    requires Slots(t)
    ensures r.1.Found? ==> r.1.i < NENV && Slots(r.0)
  {
    if t.free == [] then (t, BadEnv)
    else
      var i := t.free[0];
      var e := Env(Runnable, Id(t.next + 1, i), parent, 0);
      (Table(t.envs[i := e], t.free[1..], t.next + 1), Found(i))
  }

  function Release(t: Table, i: nat): Table
    requires i < |t.envs|
  {
    Table(t.envs[i := t.envs[i].(status := Free)], [i] + t.free, t.next)
  }

  /** envid2env; `cur` is the slot of curenv. */
  function Envid2Env(t: Table, cur: nat, envid: nat, checkperm: bool): (r: Lookup)
    requires |t.envs| == NENV && cur < NENV
    ensures r.Found? ==> r.i < NENV
  {
    if envid == 0 then Found(cur)
    else
      var i := Envx(envid);
      var e := t.envs[i];
      if e.status == Free || e.id != envid then BadEnv
      else if checkperm && i != cur && e.parent != t.envs[cur].id then BadEnv
      else Found(i)
  }

  // ---------- invariants ----------

  predicate Slots(t: Table) {
    |t.envs| == NENV && forall k :: 0 <= k < |t.free| ==> t.free[k] < NENV
  }

  /** A slot is on the free list exactly when its status is ENV_FREE, and only once. */
  predicate FreeOk(t: Table) {
    && Slots(t)
    && (forall j, k :: 0 <= j < k < |t.free| ==> t.free[j] != t.free[k])
    && (forall i :: 0 <= i < NENV ==> (i in t.free <==> t.envs[i].status == Free))
  }

  /** What happened so far: the slots and ids env_alloc handed out, and the ids of freed
      environments. */
  datatype History = History(issued: seq<(nat, nat)>, freed: set<nat>)

  datatype System = System(t: Table, h: History)

  predicate Issued(s: System) {
    && |s.h.issued| == s.t.next
    && forall k :: 0 <= k < |s.h.issued| ==>
         s.h.issued[k].0 < NENV && s.h.issued[k].1 == Id(k + 1, s.h.issued[k].0)
  }

  /** The live environment in a slot is the last one issued there. */
  predicate LiveOk(s: System)
    requires Slots(s.t)
  {
    && (forall i :: 0 <= i < NENV && s.t.envs[i].status != Free ==>
          (i, s.t.envs[i].id) in s.h.issued && s.t.envs[i].id !in s.h.freed)
    && (forall k :: 0 <= k < |s.h.issued| ==>
          s.h.issued[k].1 in s.h.freed
          || (s.h.issued[k].0 < NENV && s.t.envs[s.h.issued[k].0].status != Free
              && s.t.envs[s.h.issued[k].0].id == s.h.issued[k].1))
    && (forall id <- s.h.freed :: exists k :: 0 <= k < |s.h.issued| && s.h.issued[k].1 == id)
  }

  predicate Inv(s: System) { FreeOk(s.t) && Issued(s) && LiveOk(s) }

  // ---------- runs ----------

  datatype Step = DoAlloc(parent: nat) | DoFree(i: nat)

  predicate Can(s: System, step: Step) {
    Slots(s.t) && (step.DoFree? ==> step.i < NENV && s.t.envs[step.i].status != Free)
  }

  function Next(s: System, step: Step): System
    requires Can(s, step)
  {
    match step
    case DoAlloc(parent) =>
      var (t, r) := Alloc(s.t, parent);
      (match r
       case BadEnv => s.(t := t)
       case Found(i) => System(t, s.h.(issued := s.h.issued + [(i, Id(s.t.next + 1, i))])))
    case DoFree(i) => System(Release(s.t, i), s.h.(freed := s.h.freed + {s.t.envs[i].id}))
  }

  predicate Reaches(s: System, steps: seq<Step>)
    decreases |steps|
  {
    steps == [] || (Can(s, steps[0]) && Reaches(Next(s, steps[0]), steps[1..]))
  }

  function Run(s: System, steps: seq<Step>): System
    requires Reaches(s, steps)
    decreases |steps|
  {
    if steps == [] then s else Run(Next(s, steps[0]), steps[1..])
  }

  function Boot(envs: seq<Env>): System
    requires |envs| == NENV
  {
    System(Init(envs), History([], {}))
  }

  lemma ModOf(a: int, q: int, r: int, m: nat)
    requires 0 <= r < m && a == q * m + r
    ensures a % m == r
  {
    var d := a / m - q;
    assert a == (a / m) * m + a % m;
    assert d * m == r - a % m;
    assert d >= 1 ==> d * m >= m;
    assert d <= -1 ==> d * m <= 0 - m;
  }

  lemma IdSplits(n: nat, i: nat)
    requires 0 < n < GENERATIONS && i < NENV
    ensures Id(n, i) == n * ID_STEP + i && 0 < Id(n, i) < WORD && Envx(Id(n, i)) == i
  {
    ModOf(n * ID_STEP, 0, n * ID_STEP, WORD);
    ModOf(n * ID_STEP + i, 2 * n, i, NENV);
  }

  /** Ids of different allocations differ, whatever slots they are in. */
  lemma IdsDiffer(n: nat, i: nat, m: nat, j: nat)
    requires 0 < n < m < GENERATIONS && i < NENV && j < NENV
    ensures Id(n, i) != Id(m, j)
  {
    IdSplits(n, i);
    IdSplits(m, j);
  }

  lemma AllocFreeOk(t: Table, parent: nat)
    requires FreeOk(t)
    ensures FreeOk(Alloc(t, parent).0)
  {
    if t.free != [] {
      var i := t.free[0];
      var t' := Alloc(t, parent).0;
      forall j | 0 <= j < NENV ensures j in t'.free <==> t'.envs[j].status == Free {
        assert j in t.free <==> j == i || j in t.free[1..];
      }
    }
  }

  lemma ReleaseFreeOk(t: Table, i: nat)
    requires FreeOk(t) && i < NENV && t.envs[i].status != Free
    ensures FreeOk(Release(t, i))
  {
    assert i !in t.free;
  }

  lemma AllocInv(s: System, parent: nat)
    requires Inv(s) && s.t.next + 1 < GENERATIONS
    ensures Inv(Next(s, DoAlloc(parent)))
  {
    if s.t.free != [] {
      var i := s.t.free[0];
      var id := Id(s.t.next + 1, i);
      var s' := Next(s, DoAlloc(parent));
      forall k | 0 <= k < |s.h.issued| ensures s.h.issued[k].1 != id {
        IdsDiffer(k + 1, s.h.issued[k].0, s.t.next + 1, i);
      }
      assert id !in s.h.freed;
      assert s'.h.issued[|s.h.issued|] == (i, id);
      assert s.t.envs[i].status == Free;
      AllocFreeOk(s.t, parent);
      forall id' | id' in s'.h.freed ensures exists k :: 0 <= k < |s'.h.issued| && s'.h.issued[k].1 == id' {
        var k :| 0 <= k < |s.h.issued| && s.h.issued[k].1 == id';
        assert s'.h.issued[k].1 == id';
      }
    }
  }

  lemma FreeInv(s: System, i: nat)
    requires Inv(s) && i < NENV && s.t.envs[i].status != Free && s.t.next < GENERATIONS
    ensures Inv(Next(s, DoFree(i)))
  {
    var s' := Next(s, DoFree(i));
    var id := s.t.envs[i].id;
    assert (i, id) in s.h.issued;
    forall j | 0 <= j < NENV && s'.t.envs[j].status != Free ensures s'.t.envs[j].id != id {
      var k :| 0 <= k < |s.h.issued| && s.h.issued[k] == (i, id);
      var m :| 0 <= m < |s.h.issued| && s.h.issued[m] == (j, s.t.envs[j].id);
      IdSplits(k + 1, i);
      IdSplits(m + 1, j);
    }
  }

  lemma StepInv(s: System, step: Step)
    requires Inv(s) && Can(s, step) && s.t.next + Allocs([step]) < GENERATIONS
    ensures Inv(Next(s, step)) && Next(s, step).t.next <= s.t.next + Allocs([step])
  {
    hide FreeOk, Issued, LiveOk;
    match step
    case DoAlloc(parent) => AllocInv(s, parent);
    case DoFree(i) => FreeInv(s, i);
  }

  lemma BootInv(envs: seq<Env>)
    requires |envs| == NENV
    ensures Inv(Boot(envs))
  {
    var t := Init(envs);
    forall i | 0 <= i < NENV ensures i in t.free { assert t.free[i] == i; }
  }

  function Allocs(steps: seq<Step>): nat {
    if steps == [] then 0 else (if steps[0].DoAlloc? then 1 else 0) + Allocs(steps[1..])
  }

  lemma {:induction false} RunInv(s: System, steps: seq<Step>)
    requires Inv(s) && Reaches(s, steps) && s.t.next + Allocs(steps) < GENERATIONS
    ensures Inv(Run(s, steps)) && Run(s, steps).t.next <= s.t.next + Allocs(steps)
    decreases |steps|
  {
    hide Inv, Next, Can;
    if steps != [] {
      assert Allocs(steps) == Allocs([steps[0]]) + Allocs(steps[1..]) by {
        assert [steps[0]][1..] == [];
      }
      StepInv(s, steps[0]);
      RunInv(Next(s, steps[0]), steps[1..]);
    }
  }

  // ---------- what ids promise ----------

  /** Before the counter wraps, over any run of env_alloc and env_free every id handed out is
      nonzero and no two are equal. */
  lemma IdsAreDistinct(envs: seq<Env>, steps: seq<Step>)
    requires |envs| == NENV && Reaches(Boot(envs), steps) && Allocs(steps) < GENERATIONS
    ensures var issued := Run(Boot(envs), steps).h.issued;
            && (forall k :: 0 <= k < |issued| ==> issued[k].1 != 0 && Envx(issued[k].1) == issued[k].0)
            && (forall j, k :: 0 <= j < k < |issued| ==> issued[j].1 != issued[k].1)
  {
    BootInv(envs);
    RunInv(Boot(envs), steps);
    var s := Run(Boot(envs), steps);
    forall k | 0 <= k < |s.h.issued| ensures s.h.issued[k].1 != 0 && Envx(s.h.issued[k].1) == s.h.issued[k].0 {
      IdSplits(k + 1, s.h.issued[k].0);
    }
    forall j, k | 0 <= j < k < |s.h.issued| ensures s.h.issued[j].1 != s.h.issued[k].1 {
      IdsDiffer(j + 1, s.h.issued[j].0, k + 1, s.h.issued[k].0);
    }
  }

  /** An id is a handle: an unchecked lookup of a nonzero id finds slot i exactly when env_alloc
      gave out that id for slot i and the environment has not been freed since. */
  lemma IdsAreHandles(envs: seq<Env>, steps: seq<Step>, cur: nat, envid: nat, i: nat)
    requires |envs| == NENV && Reaches(Boot(envs), steps) && Allocs(steps) < GENERATIONS
    requires cur < NENV && envid != 0
    ensures Slots(Run(Boot(envs), steps).t)
    ensures var s := Run(Boot(envs), steps);
            Envid2Env(s.t, cur, envid, false) == Found(i)
            <==> (i, envid) in s.h.issued && envid !in s.h.freed
  {
    BootInv(envs);
    RunInv(Boot(envs), steps);
    var s := Run(Boot(envs), steps);
    if (i, envid) in s.h.issued && envid !in s.h.freed { IssuedSlot(s, i, envid); }
  }

  lemma IssuedSlot(s: System, i: nat, envid: nat)
    requires Inv(s) && s.t.next < GENERATIONS && (i, envid) in s.h.issued
    ensures i < NENV && Envx(envid) == i
  {
    var k :| 0 <= k < |s.h.issued| && s.h.issued[k] == (i, envid);
    IdSplits(k + 1, i);
  }

  /** A checked lookup finds exactly the caller and the live environments the caller created. */
  lemma CheckedFindsFamily(envs: seq<Env>, steps: seq<Step>, cur: nat, envid: nat)
    requires |envs| == NENV && Reaches(Boot(envs), steps) && Allocs(steps) < GENERATIONS
    requires cur < NENV && envid != 0
    ensures Slots(Run(Boot(envs), steps).t)
    ensures var s := Run(Boot(envs), steps);
            Envid2Env(s.t, cur, envid, true).Found?
            <==> (Envx(envid), envid) in s.h.issued && envid !in s.h.freed
                 && (Envx(envid) == cur || s.t.envs[Envx(envid)].parent == s.t.envs[cur].id)
  {
    hide Run, Reaches, Allocs, Inv;
    IdsAreHandles(envs, steps, cur, envid, Envx(envid));
  }

  /** Id 0 stands for the caller, whether or not permission is checked. */
  lemma ZeroIsCaller(t: Table, cur: nat, checkperm: bool)
    requires |t.envs| == NENV && cur < NENV
    ensures Envid2Env(t, cur, 0, checkperm) == Found(cur)
  {}

  /** env_alloc takes a free slot and makes it runnable, with a fresh id, the parent it was given and no
      runs; no other slot changes. It fails exactly when every slot is in use. */
  lemma AllocGives(t: Table, parent: nat)
    requires FreeOk(t)
    ensures var (t', r) := Alloc(t, parent);
            && (r.BadEnv? <==> forall i :: 0 <= i < NENV ==> t.envs[i].status != Free)
            && (r.BadEnv? ==> t' == t)
            && (r.Found? ==>
                  && t.envs[r.i].status == Free && t'.next == t.next + 1
                  && t'.envs[r.i] == Env(Runnable, Id(t'.next, r.i), parent, 0)
                  && (forall i :: 0 <= i < NENV && i != r.i ==> t'.envs[i] == t.envs[i])
                  && (forall i :: i in t'.free <==> i in t.free && i != r.i))
  {
    if t.free != [] {
      assert t.free[0] in t.free;
      assert forall i :: i in t.free <==> i == t.free[0] || i in t.free[1..];
    }
  }

  /** After env_init every slot is free, and env_alloc hands them out in order from slot 0. */
  lemma InitOrder(envs: seq<Env>, parent: nat, k: nat)
    requires |envs| == NENV && k < NENV
    ensures var t := Init(envs);
            && t.envs[k] == envs[k].(status := Free) && t.free[k] == k && |t.free| == NENV && t.next == 0
            && Alloc(t, parent).1 == Found(0) && Alloc(t, parent).0.free == t.free[1..]
  {}

  /** env_free makes the slot the next one that env_alloc takes, and touches no other. */
  lemma ReleaseGives(t: Table, i: nat, parent: nat)
    requires FreeOk(t) && i < NENV && t.envs[i].status != Free
    ensures var t' := Release(t, i);
            && FreeOk(t') && t'.next == t.next && t'.envs[i] == t.envs[i].(status := Free)
            && (forall k :: 0 <= k < NENV && k != i ==> t'.envs[k] == t.envs[k])
            && Alloc(t', parent).1 == Found(i) && Alloc(t', parent).0.free == t.free
  {
    ReleaseFreeOk(t, i);
  }

  /** Who may look a new environment up with permission checked: itself, and of the others exactly the one
      whose id was passed as the parent. */
  lemma ChildIsFamily(s: System, parent: nat, c: nat)
    requires Inv(s) && s.t.next + 1 < GENERATIONS && s.t.free != [] && c < NENV
    ensures var (t, r) := Alloc(s.t, parent);
            r.Found? && (Envid2Env(t, c, t.envs[r.i].id, true) == Found(r.i) <==> c == r.i || t.envs[c].id == parent)
            && (Envid2Env(t, c, t.envs[r.i].id, true) == BadEnv <==> c != r.i && t.envs[c].id != parent)
  {
    IdSplits(s.t.next + 1, s.t.free[0]);
  }

  /** The promise ends exactly at the wrap: the counter part of an id is zero just when the
      number of allocations is a multiple of 2^21; in slot 0 the id is then 0, which every
      lookup takes for curenv. */
  lemma IdWraps(n: nat, i: nat)
    requires i < NENV
    ensures Id(n, i) == i <==> n % GENERATIONS == 0
    ensures Id(n + GENERATIONS, i) == Id(n, i)
  {
    IdIs(n, i);
    IdIs(n + GENERATIONS, i);
    ModOf(n + GENERATIONS, n / GENERATIONS + 1, n % GENERATIONS, GENERATIONS);
    hide Id;
  }

  lemma IdIs(n: nat, i: nat)
    ensures Id(n, i) == (n % GENERATIONS) * ID_STEP + i
  {
    var q, r := n / GENERATIONS, n % GENERATIONS;
    assert n == q * GENERATIONS + r;
    assert n * ID_STEP == q * WORD + r * ID_STEP;
    ModOf(n * ID_STEP, q, r * ID_STEP, WORD);
  }

  /** Which allocations get the same id: those of the same slot whose numbers agree modulo 2^21. */
  lemma SameIds(n: nat, i: nat, m: nat, j: nat)
    requires i < NENV && j < NENV
    ensures Id(n, i) == Id(m, j) <==> i == j && n % GENERATIONS == m % GENERATIONS
  {
    IdIs(n, i);
    IdIs(m, j);
  }

  // ---------- lib/env.c, updating in place ----------

  class Envs {
    const envs: array<Env>
    var free: seq<nat>       // env_free_list
    var next: nat            // next_env_id

    ghost function T(): Table
      reads this, envs
    {
      Table(envs[..], free, next)
    }

    /** env_init. */
    constructor (initial: seq<Env>)
      requires |initial| == NENV
      ensures fresh(envs) && T() == Init(initial) && FreeOk(T())
    {
      envs := new Env[NENV](i requires 0 <= i < NENV && |initial| == NENV => initial[i]);
      free, next := [], 0;
      new;
      var i: int := NENV - 1;
      while i >= 0
        invariant -1 <= i < NENV && fresh(envs) && next == 0
        invariant forall k :: 0 <= k < NENV ==> envs[k] == if k > i then initial[k].(status := Free) else initial[k]
        invariant |free| == NENV - 1 - i && forall k :: 0 <= k < |free| ==> free[k] == i + 1 + k
      {
        envs[i] := envs[i].(status := Free);
        free := [i] + free;
        i := i - 1;
      }
      assert free == seq(NENV, i => i);
      BootInv(initial);
      assert T() == Init(initial);
    }

    /** mkenvid. */
    method Mkenvid(i: nat) returns (id: nat)
      requires i < NENV
      modifies this`next
      ensures next == old(next) + 1 && id == Id(next, i)
    {
      next := next + 1;
      id := (next * ID_STEP) % WORD + i;
    }

    /** env_alloc; Found is success, BadEnv stands for -E_NO_FREE_ENV. */
    method EnvAlloc(parent: nat) returns (r: Lookup)
      requires Slots(T()) && envs.Length == NENV
      modifies this`free, this`next, envs
      ensures (T(), r) == Alloc(old(T()), parent)
      ensures old(FreeOk(T())) ==> FreeOk(T())
      ensures r.BadEnv? <==> old(free) == []
    {
      if old(FreeOk(T())) { AllocFreeOk(T(), parent); }
      if free == [] { return BadEnv; }
      var e := free[0];
      envs[e] := envs[e].(parent := parent, status := Runnable, runs := 0);
      var id := Mkenvid(e);
      envs[e] := envs[e].(id := id);
      free := free[1..];
      r := Found(e);
      assert envs[..] == Alloc(old(T()), parent).0.envs;
    }

    /** The slot bookkeeping at the end of env_free. */
    method EnvFree(i: nat)
      requires Slots(T()) && i < NENV && envs[i].status != Free
      modifies this`free, envs
      ensures T() == Release(old(T()), i)
      ensures old(FreeOk(T())) ==> FreeOk(T())
    {
      if old(FreeOk(T())) { ReleaseFreeOk(T(), i); }
      envs[i] := envs[i].(status := Free);
      free := [i] + free;
      assert envs[..] == Release(old(T()), i).envs;
    }
  }
}
