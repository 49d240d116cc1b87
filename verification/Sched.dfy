/** The round-robin scheduler: lib/sched.c. */
module Sched {
  const NENV: nat := 1024

  /** Which slots of envs hold ENV_RUNNABLE when sched_yield is called. */
  type Statuses = s: seq<bool> | |s| == NENV witness seq(NENV, _ => false)

  predicate AnyRunnable(st: Statuses) { exists i :: 0 <= i < NENV && st[i] }

  predicate RunnableAt(st: Statuses, v: int) { st[v % NENV] }

  /** Scanning upward without wrapping the counter, `to` is where the scan that left `from`
      stops: a runnable slot with no runnable slot in between. */
  predicate StopsAt(st: Statuses, from: int, to: int) {
    from < to && RunnableAt(st, to) && forall v :: from < v < to ==> !RunnableAt(st, v)
  }

  lemma StopIsUnique(st: Statuses, from: int, x: int, y: int)
    requires StopsAt(st, from, x) && StopsAt(st, from, y)
    ensures x == y
  {
    assert x < y ==> !RunnableAt(st, x);
    assert y < x ==> !RunnableAt(st, y);
  }

  lemma {:induction false} WrapsTo(a: int, d: nat)
    ensures (a + d) % NENV == (a % NENV + d) % NENV
  {
    ShiftMod(a % NENV + d, a / NENV);
    assert a + d == a % NENV + d + (a / NENV) * NENV;
  }

  lemma ShiftMod(x: int, q: int)
    ensures (x + q * NENV) % NENV == x % NENV
  {
    var y := x + q * NENV;
    assert y / NENV == x / NENV + q;
  }

  /** Whatever slot the scan starts from, a runnable slot lies within one lap. */
  lemma OneLap(st: Statuses, from: int, i: nat) returns (v: int)
    requires i < NENV
    ensures from < v <= from + NENV && v % NENV == i
  {
    var r := (from + 1) % NENV;
    var d := if i >= r then i - r else i - r + NENV;
    v := from + 1 + d;
    WrapsTo(from + 1, d);
  }

  /** sched_yield's static position. The loop is the source's; it stops within NENV steps if some
      slot is runnable, at the first runnable slot after the last one. */
  class Scheduler {
    var pos: int
    ghost var lap: int     // pos without the wrap-around

    ghost predicate Valid()
      reads this
    {
      -1 <= pos < NENV && lap >= -1 && (pos == -1 <==> lap == -1) && (lap >= 0 ==> pos == lap % NENV)
    }

    constructor ()
      ensures Valid() && pos == -1 && lap == -1
    {
      pos, lap := -1, -1;
    }

    method Yield(st: Statuses)
      requires Valid() && AnyRunnable(st)
      modifies this
      ensures Valid() && 0 <= pos < NENV && st[pos]
      ensures StopsAt(st, old(lap), lap) && lap <= old(lap) + NENV
    {
      ghost var from := lap;
      ghost var i :| 0 <= i < NENV && st[i];
      ghost var v := OneLap(st, from, i);
      Advance();
      while !st[pos]
        invariant Valid() && from < lap <= v && pos >= 0
        invariant forall u :: from < u < lap ==> !RunnableAt(st, u)
        decreases v - lap
      {
        Advance();
      }
    }

    /** pos = (pos+1)%NENV. */
    method Advance()
      requires Valid()
      modifies this
      ensures Valid() && lap == old(lap) + 1
    {
      if lap >= 0 { WrapsTo(lap, 1); }
      pos, lap := (pos + 1) % NENV, lap + 1;
    }
  }

  // ---------- fairness ----------

  /** A run: stops[k + 1] is picked from stops[k] under statuses sts[k], which change at will
      between picks. */
  ghost predicate IsRun(stops: seq<int>, sts: seq<Statuses>) {
    |stops| == |sts| + 1 && forall k :: 0 <= k < |sts| ==> StopsAt(sts[k], stops[k], stops[k + 1])
  }

  /** How often slot b is picked after pick i, up to and including pick j. */
  function Picks(stops: seq<int>, b: nat, i: nat, j: nat): nat
    requires i <= j < |stops|
  {
    if i == j then 0 else Picks(stops, b, i, j - 1) + (if stops[j] % NENV == b then 1 else 0)
  }

  /** How often the scan looks at slot b after x, up to and including y. */
  function Looks(b: nat, x: int, y: int): nat
    decreases y - x
  {
    if y <= x then 0 else Looks(b, x, y - 1) + (if y % NENV == b then 1 else 0)
  }

  lemma {:induction false} LooksAdd(b: nat, x: int, y: int, z: int)
    requires x <= y <= z
    ensures Looks(b, x, z) == Looks(b, x, y) + Looks(b, y, z)
    decreases z - y
  {
    if y < z { LooksAdd(b, x, y, z - 1); }
  }

  lemma {:induction false} LooksNone(b: nat, x: int, y: int)
    requires forall v :: x < v <= y ==> v % NENV != b
    ensures Looks(b, x, y) == 0
    decreases y - x
  {
    if x < y { LooksNone(b, x, y - 1); }
  }

  lemma FloorStep(y: int, b: nat)
    requires b < NENV
    ensures (y - b) / NENV == (y - 1 - b) / NENV + (if y % NENV == b then 1 else 0)
  {
    var q, r := y / NENV, y % NENV;
    assert y - b == q * NENV + (r - b);
  }

  lemma {:induction false} LooksFloor(b: nat, x: int, y: int)
    requires b < NENV && x <= y
    ensures Looks(b, x, y) == (y - b) / NENV - (x - b) / NENV
    decreases y - x
  {
    if x < y {
      LooksFloor(b, x, y - 1);
      FloorStep(y, b);
    }
  }

  /** A whole number of laps looks at every slot that many times. */
  lemma Laps(b: nat, x: int, n: nat)
    requires b < NENV
    ensures Looks(b, x, x + n * NENV) == n
  {
    LooksFloor(b, x, x + n * NENV);
    assert (x + n * NENV - b) / NENV == (x - b) / NENV + n;
  }

  lemma PickLooks(st: Statuses, x: int, y: int, b: nat)
    requires b < NENV && StopsAt(st, x, y)
    ensures Looks(b, x, y) >= (if y % NENV == b then 1 else 0)
    ensures st[b] ==> Looks(b, x, y) == (if y % NENV == b then 1 else 0)
  {
    if st[b] {
      forall v | x < v < y ensures v % NENV != b { assert !RunnableAt(st, v); }
      LooksNone(b, x, y - 1);
    }
  }

  /** A slot is picked at most as often as the scan looks at it, and exactly as often while it
      stays runnable. */
  lemma {:induction false} PicksLooks(stops: seq<int>, sts: seq<Statuses>, b: nat, i: nat, j: nat)
    requires IsRun(stops, sts) && b < NENV && i <= j < |stops|
    ensures stops[i] + (j - i) <= stops[j]
    ensures Picks(stops, b, i, j) <= Looks(b, stops[i], stops[j])
    ensures (forall k :: i <= k < j ==> sts[k][b]) ==> Picks(stops, b, i, j) == Looks(b, stops[i], stops[j])
    decreases j - i
  {
    if i < j {
      PicksLooks(stops, sts, b, i, j - 1);
      assert StopsAt(sts[j - 1], stops[j - 1], stops[j]);
      PickLooks(sts[j - 1], stops[j - 1], stops[j], b);
      LooksAdd(b, stops[i], stops[j - 1], stops[j]);
    }
  }

  lemma SameSlot(x: int, y: int)
    requires x <= y && x % NENV == y % NENV
    ensures exists n: nat :: y == x + n * NENV
  {
    var n := y / NENV - x / NENV;
    assert y == x + n * NENV;
  }

  /** Between two picks of a, the scan has looked at a as often as at any other slot b, so b was
      picked at most that often, and exactly that often if it stayed runnable. Picks of a fall
      short of looks at a exactly by the times a was passed over while it could not run. */
  lemma Fair(stops: seq<int>, sts: seq<Statuses>, i: nat, j: nat, a: nat, b: nat)
    requires IsRun(stops, sts) && i < j < |stops| && a < NENV && b < NENV
    requires stops[i] % NENV == a && stops[j] % NENV == a
    ensures Looks(a, stops[i], stops[j]) == Looks(b, stops[i], stops[j])
    ensures 1 <= Picks(stops, a, i, j) <= Looks(a, stops[i], stops[j])
    ensures Picks(stops, b, i, j) <= Looks(a, stops[i], stops[j])
    ensures (forall k :: i <= k < j ==> sts[k][b]) ==> Picks(stops, b, i, j) == Looks(a, stops[i], stops[j])
  {
    PicksLooks(stops, sts, a, i, j);
    PicksLooks(stops, sts, b, i, j);
    SameSlot(stops[i], stops[j]);
    var n: nat :| stops[j] == stops[i] + n * NENV;
    Laps(a, stops[i], n);
    Laps(b, stops[i], n);
  }

  /** Round robin: between two successive picks of a that stayed runnable, every other slot is
      picked at most once, and exactly once if it stayed runnable too. */
  lemma RoundRobin(stops: seq<int>, sts: seq<Statuses>, i: nat, j: nat, a: nat, b: nat)
    requires IsRun(stops, sts) && i < j < |stops| && a < NENV && b < NENV
    requires stops[i] % NENV == a && stops[j] % NENV == a
    requires Picks(stops, a, i, j) == 1 && forall k :: i <= k < j ==> sts[k][a]
    ensures Picks(stops, b, i, j) <= 1
    ensures (forall k :: i <= k < j ==> sts[k][b]) ==> Picks(stops, b, i, j) == 1
  {
    Fair(stops, sts, i, j, a, b);
    PicksLooks(stops, sts, a, i, j);
  }

  /** Nothing that stays runnable waits longer than NENV picks. */
  lemma BoundedWait(stops: seq<int>, sts: seq<Statuses>, i: nat, b: nat)
    requires IsRun(stops, sts) && b < NENV && i + NENV < |stops|
    requires forall k :: i <= k < i + NENV ==> sts[k][b]
    ensures Picks(stops, b, i, i + NENV) >= 1
  {
    PicksLooks(stops, sts, b, i, i + NENV);
    Laps(b, stops[i], 1);
    LooksAdd(b, stops[i], stops[i] + NENV, stops[i + NENV]);
  }

  function Only(i: nat): Statuses { seq(NENV, k => k == i) }

  /** If a sleeps, another slot can be picked any number of times between two successive picks
      of a: here slot 1 is picked n times between picks of slot 0. */
  lemma SleepersArePassed(n: nat) returns (stops: seq<int>, sts: seq<Statuses>)
    ensures IsRun(stops, sts) && |stops| == n + 2
    ensures stops[0] % NENV == 0 && stops[n + 1] % NENV == 0
    ensures Picks(stops, 1, 0, n + 1) == n && Picks(stops, 0, 0, n + 1) == 1
  {
    stops := [0] + seq(n, k => 1 + k * NENV) + [n * NENV];
    sts := seq(n, k => Only(1)) + [Only(0)];
    if n == 0 { stops := [0, NENV]; }
    forall k | 0 <= k < |sts| ensures StopsAt(sts[k], stops[k], stops[k + 1]) {
      OnlyStops(stops, sts, n, k);
    }
    var k := 0;
    while k < n
      invariant 0 <= k <= n && Picks(stops, 1, 0, k) == k && Picks(stops, 0, 0, k) == 0
    {
      ShiftMod(1, k);
      assert stops[k + 1] == 1 + k * NENV;
      k := k + 1;
    }
    ShiftMod(0, n);
  }

  lemma OnlyStops(stops: seq<int>, sts: seq<Statuses>, n: nat, k: nat)
    requires |stops| == n + 2 && |sts| == n + 1 && k <= n && stops[0] == 0
    requires forall m :: 0 <= m < n ==> stops[m + 1] == 1 + m * NENV && sts[m] == Only(1)
    requires stops[n + 1] == (if n == 0 then NENV else n * NENV) && sts[n] == Only(0)
    ensures StopsAt(sts[k], stops[k], stops[k + 1])
  {
    if k == n {
      ShiftMod(0, n);
      if n > 0 { assert stops[n] == 1 + (n - 1) * NENV; }
      forall v | stops[n] < v < stops[n + 1] ensures v % NENV != 0 {
        ShiftMod(v - (if n == 0 then 0 else n - 1) * NENV, if n == 0 then 0 else n - 1);
      }
    } else {
      ShiftMod(1, k);
      if k > 0 { assert stops[k] == 1 + (k - 1) * NENV; }
      forall v | stops[k] < v < stops[k + 1] ensures v % NENV != 1 {
        var q := if k == 0 then 0 else k - 1;
        ShiftMod(v - q * NENV, q);
      }
    }
  }
}
