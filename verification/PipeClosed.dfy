/** When user/pipe.c calls a pipe closed: the two reference counts that _pipeisclosed compares,
    against any number of processes that close descriptors, fork, exit and ask, one page
    operation or one statement at a time. */
module PipeClosed {
  datatype End = Reads | Writes

  /** A descriptor is two mappings, its fd page and the shared data page behind it. */
  datatype Slot = Fd(e: End) | Data(e: End)

  /** The statements of _pipeisclosed. `pfd`, `runs` and `pfp` are its locals; `at` is the value
      env_runs had when pfd was read, which the program does not record. */
  datatype Ask =
    | ReadFd                                            // pfd = pageref(fd)
    | Sample(pfd: nat, at: nat)                         // runs = env->env_runs
    | ReadData(pfd: nat, at: nat, runs: nat)            // pfp = pageref(p)
    | Compare(pfd: nat, at: nat, runs: nat, pfp: nat)   // while (runs != env->env_runs)

  datatype Doing =
    | Idle
    | Closing(e: End)                     // pipeclose between its two unmaps
    | Copying(child: nat, next: nat)      // fork, about to look at slot `next`
    | Embryo                              // a child that fork has not yet started
    | Asking(e: End, ask: Ask)
    | Dead

  /** A process: what it has mapped, what it is doing, how often it was scheduled (env_runs). */
  datatype Proc = Proc(held: set<Slot>, doing: Doing, runs: nat)

  datatype State = State(procs: seq<Proc>, cur: nat)

  function Other(e: End): End { if e == Reads then Writes else Reads }

  /** fork scans upward: the fd table lies below the data pages, and pipe() takes the lower
      descriptor for reading. */
  const FORK_ORDER: seq<Slot> := [Fd(Reads), Fd(Writes), Data(Reads), Data(Writes)]

  function Holders(ps: seq<Proc>, s: Slot): nat {
    if ps == [] then 0
    else Holders(ps[..|ps| - 1], s) + (if s in ps[|ps| - 1].held then 1 else 0)
  }

  /** pp_ref of the three pages: one for each mapping, and the one that sys_mem_alloc adds. */
  function FdRef(ps: seq<Proc>, e: End): nat { 1 + Holders(ps, Fd(e)) }

  function DataRef(ps: seq<Proc>): nat { 1 + Holders(ps, Data(Reads)) + Holders(ps, Data(Writes)) }

  // ---------- steps ----------

  /** The current process runs one page operation or one statement, or the kernel switches. */
  datatype Step =
    | Switch(to: nat)
    | CloseFd(e: End)
    | CloseData
    | Fork
    | Copy
    | EndFork
    | Exit
    | StartAsk(e: End)
    | RunAsk

  predicate Can(s: State, step: Step) {
    s.cur < |s.procs|
    && var me := s.procs[s.cur];
       match step
       case Switch(to) => to < |s.procs| && s.procs[to].doing != Embryo && s.procs[to].doing != Dead
       case CloseFd(e) => me.doing == Idle && Fd(e) in me.held
       case CloseData => me.doing.Closing?
       case Fork => me.doing == Idle
       case Copy => me.doing.Copying? && me.doing.next < 4 && me.doing.child < |s.procs|
       case EndFork => me.doing.Copying? && me.doing.next == 4 && me.doing.child < |s.procs|
       case Exit => me.doing != Dead
       case StartAsk(e) => me.doing == Idle && Fd(e) in me.held
       case RunAsk => me.doing.Asking?
  }

  function RunAskOf(s: State): Doing
    requires s.cur < |s.procs| && s.procs[s.cur].doing.Asking?
  {
    var me := s.procs[s.cur];
    var e := me.doing.e;
    match me.doing.ask
    case ReadFd => Asking(e, Sample(FdRef(s.procs, e), me.runs))
    case Sample(pfd, at) => Asking(e, ReadData(pfd, at, me.runs))
    case ReadData(pfd, at, runs) => Asking(e, Compare(pfd, at, runs, DataRef(s.procs)))
    case Compare(pfd, at, runs, pfp) => if runs != me.runs then Asking(e, ReadFd) else Idle
  }

  function Set(s: State, i: nat, p: Proc): State
    requires i < |s.procs|
  {
    s.(procs := s.procs[i := p])
  }

  function Next(s: State, step: Step): State
    requires Can(s, step)
  {
    var me := s.procs[s.cur];
    match step
    case Switch(to) => Set(s, to, s.procs[to].(runs := s.procs[to].runs + 1)).(cur := to)
    case CloseFd(e) => Set(s, s.cur, me.(held := me.held - {Fd(e)}, doing := Closing(e)))
    case CloseData => Set(s, s.cur, me.(held := me.held - {Data(me.doing.e)}, doing := Idle))
    case Fork =>
      var t := Set(s, s.cur, me.(doing := Copying(|s.procs|, 0)));
      t.(procs := t.procs + [Proc({}, Embryo, 0)])
    case Copy =>
      var c := s.procs[me.doing.child];
      var page := FORK_ORDER[me.doing.next];
      var t := if page in me.held then Set(s, me.doing.child, c.(held := c.held + {page})) else s;
      Set(t, s.cur, t.procs[s.cur].(doing := Copying(me.doing.child, me.doing.next + 1)))
    case EndFork =>
      var t := Set(s, me.doing.child, s.procs[me.doing.child].(doing := Idle));
      Set(t, s.cur, me.(doing := Idle))
    case Exit => Set(s, s.cur, me.(held := {}, doing := Dead))
    case StartAsk(e) => Set(s, s.cur, me.(doing := Asking(e, ReadFd)))
    case RunAsk => Set(s, s.cur, me.(doing := RunAskOf(s)))
  }

  // ---------- counting ----------

  /** Children that have the fd page of an end but not yet its data page. */
  function Pending(ps: seq<Proc>, e: End): nat {
    if ps == [] then 0
    else Pending(ps[..|ps| - 1], e)
         + (if Fd(e) in ps[|ps| - 1].held && Data(e) !in ps[|ps| - 1].held then 1 else 0)
  }

  /** Processes that hold only the data page of an end: they are closing it. */
  function Leaving(ps: seq<Proc>, e: End): nat {
    if ps == [] then 0
    else Leaving(ps[..|ps| - 1], e)
         + (if Data(e) in ps[|ps| - 1].held && Fd(e) !in ps[|ps| - 1].held then 1 else 0)
  }

  lemma {:induction false} Balance(ps: seq<Proc>, e: End)
    ensures Holders(ps, Data(e)) + Pending(ps, e) == Holders(ps, Fd(e)) + Leaving(ps, e)
  {
    if ps != [] { Balance(ps[..|ps| - 1], e); }
  }

  /** The counts are equal exactly when the mappings of the data page through the other end, and
      through descriptors of this end being closed, are as many as the fd pages of this end that
      fork has copied ahead of their data page. */
  lemma EqualCounts(ps: seq<Proc>, e: End)
    ensures FdRef(ps, e) == DataRef(ps) <==> Holders(ps, Data(Other(e))) + Leaving(ps, e) == Pending(ps, e)
  {
    Balance(ps, e);
  }

  lemma {:induction false} HoldersZero(ps: seq<Proc>, s: Slot)
    ensures Holders(ps, s) == 0 <==> forall i :: 0 <= i < |ps| ==> s !in ps[i].held
  {
    if ps != [] { HoldersZero(ps[..|ps| - 1], s); }
  }

  lemma {:induction false} LeavingZero(ps: seq<Proc>, e: End)
    ensures Leaving(ps, e) == 0 <==> forall i :: 0 <= i < |ps| ==> Data(e) in ps[i].held ==> Fd(e) in ps[i].held
  {
    if ps != [] { LeavingZero(ps[..|ps| - 1], e); }
  }

  lemma {:induction false} PendingZero(ps: seq<Proc>, e: End)
    ensures Pending(ps, e) == 0 <==> forall i :: 0 <= i < |ps| ==> Fd(e) in ps[i].held ==> Data(e) in ps[i].held
  {
    if ps != [] { PendingZero(ps[..|ps| - 1], e); }
  }

  /** Two tables whose processes hold the same pages have the same counts. */
  lemma {:induction false} SameHolders(ps: seq<Proc>, qs: seq<Proc>, s: Slot)
    requires |ps| == |qs| && forall i :: 0 <= i < |ps| ==> ps[i].held == qs[i].held
    ensures Holders(ps, s) == Holders(qs, s)
  {
    if ps != [] { SameHolders(ps[..|ps| - 1], qs[..|qs| - 1], s); }
  }

  lemma SameRefs(ps: seq<Proc>, qs: seq<Proc>)
    requires |ps| == |qs| && forall i :: 0 <= i < |ps| ==> ps[i].held == qs[i].held
    ensures forall e :: FdRef(ps, e) == FdRef(qs, e)
    ensures DataRef(ps) == DataRef(qs)
  {
    forall s: Slot ensures Holders(ps, s) == Holders(qs, s) { SameHolders(ps, qs, s); }
  }

  // ---------- the invariant ----------

  /** Only an unstarted child can hold an fd page without its data page; a process in pipeclose
      has already unmapped the fd page, and one that asks about an end has it mapped. */
  predicate Whole(p: Proc) {
    && (p.doing != Embryo ==> forall e: End :: Fd(e) in p.held ==> Data(e) in p.held)
    && (p.doing.Closing? ==> Fd(p.doing.e) !in p.held)
    && (p.doing.Asking? ==> Fd(p.doing.e) in p.held)
  }

  /** What a forking process has copied so far. */
  predicate Copied(s: State, i: nat)
    requires i < |s.procs|
  {
    var me := s.procs[i];
    me.doing.Copying? ==>
      me.doing.next <= 4 && me.doing.child < |s.procs| && me.doing.child != i
      && s.procs[me.doing.child].doing == Embryo
      && forall k :: 0 <= k < 4 ==>
           (FORK_ORDER[k] in s.procs[me.doing.child].held <==> k < me.doing.next && FORK_ORDER[k] in me.held)
  }

  predicate OneForker(s: State) {
    forall i, j :: 0 <= i < j < |s.procs| && s.procs[i].doing.Copying? && s.procs[j].doing.Copying? ==>
      s.procs[i].doing.child != s.procs[j].doing.child
  }

  /** A count read by a process that has not been switched away since is still current. */
  predicate Fresh(s: State, i: nat)
    requires i < |s.procs|
  {
    var me := s.procs[i];
    me.doing.Asking? ==>
      match me.doing.ask
      case ReadFd => true
      case Sample(pfd, at) => at <= me.runs && (s.cur == i && at == me.runs ==> pfd == FdRef(s.procs, me.doing.e))
      case ReadData(pfd, at, runs) =>
        at <= runs <= me.runs && (s.cur == i && at == me.runs ==> pfd == FdRef(s.procs, me.doing.e))
      case Compare(pfd, at, runs, pfp) =>
        at <= runs <= me.runs
        && (s.cur == i && at == me.runs ==> pfd == FdRef(s.procs, me.doing.e))
        && (s.cur == i && runs == me.runs ==> pfp == DataRef(s.procs))
  }

  predicate Inv(s: State) {
    && s.cur < |s.procs| && s.procs[s.cur].doing != Embryo
    && OneForker(s)
    && forall i :: 0 <= i < |s.procs| ==> Whole(s.procs[i]) && Copied(s, i) && Fresh(s, i)
  }

  /** One process has called pipe(), any number of others have not. */
  function Start(others: nat): State {
    State([Proc({Fd(Reads), Fd(Writes), Data(Reads), Data(Writes)}, Idle, 0)]
          + seq(others, _ => Proc({}, Idle, 0)), 0)
  }

  lemma QuietFresh(s: State, t: State, i: nat)
    requires i < |s.procs| && i < |t.procs| && t.procs[i] == s.procs[i] && Fresh(s, i) && t.cur != i
    ensures Fresh(t, i)
  {}

  lemma SwitchInv(s: State, to: nat)
    requires Inv(s) && Can(s, Switch(to))
    ensures Inv(Next(s, Switch(to)))
  {
    var t := Next(s, Switch(to));
    forall i | 0 <= i < |t.procs| ensures Whole(t.procs[i]) && Copied(t, i) && Fresh(t, i) {
      assert Whole(s.procs[i]) && Copied(s, i) && Fresh(s, i);
      if i != to { QuietFresh(s, t, i); }
    }
  }

  lemma RunAskFresh(s: State)
    requires Inv(s) && Can(s, RunAsk)
    ensures Fresh(Next(s, RunAsk), s.cur)
  {
    SameRefs(s.procs, Next(s, RunAsk).procs);
    assert Fresh(s, s.cur);
  }

  lemma AskInv(s: State, step: Step)
    requires Inv(s) && Can(s, step) && (step.StartAsk? || step.RunAsk?)
    ensures Inv(Next(s, step))
  {
    var t := Next(s, step);
    if step.RunAsk? { RunAskFresh(s); }
    forall i | 0 <= i < |t.procs| ensures Whole(t.procs[i]) && Copied(t, i) && Fresh(t, i) {
      assert Whole(s.procs[i]) && Copied(s, i) && Fresh(s, i);
      if i != s.cur { QuietFresh(s, t, i); }
    }
  }

  lemma OthersFresh(s: State, t: State)
    requires Inv(s) && t.cur == s.cur && |s.procs| <= |t.procs| && !t.procs[s.cur].doing.Asking?
    requires forall i :: 0 <= i < |s.procs| && i != s.cur ==>
               t.procs[i] == s.procs[i] || !t.procs[i].doing.Asking?
    requires forall i :: |s.procs| <= i < |t.procs| ==> !t.procs[i].doing.Asking?
    ensures forall i :: 0 <= i < |t.procs| ==> Fresh(t, i)
  {
    forall i | 0 <= i < |t.procs| ensures Fresh(t, i) {
      if i < |s.procs| && i != s.cur && t.procs[i] == s.procs[i] { QuietFresh(s, t, i); }
    }
  }

  lemma CloseInv(s: State, step: Step)
    requires Inv(s) && Can(s, step) && (step.CloseFd? || step.CloseData? || step.Exit?)
    ensures Inv(Next(s, step))
  {
    var t := Next(s, step);
    OthersFresh(s, t);
    forall i | 0 <= i < |t.procs| ensures Whole(t.procs[i]) && Copied(t, i) {
      assert Whole(s.procs[i]) && Copied(s, i);
    }
  }

  lemma ForkInv(s: State)
    requires Inv(s) && Can(s, Fork)
    ensures Inv(Next(s, Fork))
  {
    hide Fresh, Holders;
    var t := Next(s, Fork);
    OthersFresh(s, t);
    forall i | 0 <= i < |t.procs| ensures Whole(t.procs[i]) && Copied(t, i) {
      if i < |s.procs| { assert Whole(s.procs[i]) && Copied(s, i); }
    }
  }

  lemma CopyInv(s: State)
    requires Inv(s) && Can(s, Copy)
    ensures Inv(Next(s, Copy))
  {
    hide Fresh, Holders;
    var t := Next(s, Copy);
    assert Copied(s, s.cur);
    OthersFresh(s, t);
    forall k | 0 <= k < 4 ensures FORK_ORDER[k] == FORK_ORDER[s.procs[s.cur].doing.next] ==> k == s.procs[s.cur].doing.next {}
    forall i | 0 <= i < |t.procs| ensures Whole(t.procs[i]) && Copied(t, i) {
      assert Whole(s.procs[i]) && Copied(s, i);
    }
  }

  lemma EndForkInv(s: State)
    requires Inv(s) && Can(s, EndFork)
    ensures Inv(Next(s, EndFork))
  {
    hide Fresh, Holders;
    var t := Next(s, EndFork);
    assert Copied(s, s.cur) && Whole(s.procs[s.cur]);
    var child := s.procs[s.cur].doing.child;
    forall e: End ensures Fd(e) in s.procs[child].held ==> Data(e) in s.procs[child].held {
      var k := if e == Reads then 0 else 1;
      assert FORK_ORDER[k] == Fd(e) && FORK_ORDER[k + 2] == Data(e);
    }
    OthersFresh(s, t);
    forall i | 0 <= i < |t.procs| ensures Whole(t.procs[i]) && Copied(t, i) {
      assert Whole(s.procs[i]) && Copied(s, i);
    }
  }

  lemma StepInv(s: State, step: Step)
    requires Inv(s) && Can(s, step)
    ensures Inv(Next(s, step))
  {
    match step
    case Fork => ForkInv(s);
    case Copy => CopyInv(s);
    case EndFork => EndForkInv(s);
    case CloseFd(_) => CloseInv(s, step);
    case CloseData => CloseInv(s, step);
    case Exit => CloseInv(s, step);
    case Switch(to) => SwitchInv(s, to);
    case _ => AskInv(s, step);
  }

  // ---------- runs ----------

  predicate Reaches(s: State, steps: seq<Step>)
    decreases |steps|
  {
    steps == [] || (Can(s, steps[0]) && Reaches(Next(s, steps[0]), steps[1..]))
  }

  function Run(s: State, steps: seq<Step>): State
    requires Reaches(s, steps)
    decreases |steps|
  {
    if steps == [] then s else Run(Next(s, steps[0]), steps[1..])
  }

  lemma {:induction false} RunInv(s: State, steps: seq<Step>)
    requires Inv(s) && Reaches(s, steps)
    ensures Inv(Run(s, steps))
    decreases |steps|
  {
    if steps != [] {
      StepInv(s, steps[0]);
      RunInv(Next(s, steps[0]), steps[1..]);
    }
  }

  /** The answer _pipeisclosed is about to return to the current process. */
  predicate Answers(s: State, e: End, closed: bool) {
    s.cur < |s.procs|
    && var me := s.procs[s.cur];
       me.doing.Asking? && me.doing.e == e && me.doing.ask.Compare?
       && me.doing.ask.runs == me.runs && closed == (me.doing.ask.pfd == me.doing.ask.pfp)
  }

  /** No switch fell between the read of pageref(fd) and the sample of env_runs. */
  predicate NoGap(s: State) {
    s.cur < |s.procs|
    && var me := s.procs[s.cur];
       me.doing.Asking? && me.doing.ask.Compare? && me.doing.ask.at == me.doing.ask.runs
  }

  /** No process has a descriptor of this end, not even one it is opening or closing. */
  predicate Gone(ps: seq<Proc>, e: End) {
    forall i :: 0 <= i < |ps| ==> Fd(e) !in ps[i].held && Data(e) !in ps[i].held
  }

  predicate NoFork(ps: seq<Proc>) { forall i :: 0 <= i < |ps| ==> ps[i].doing != Embryo }

  /** How many fd pages of the end have been unmapped, less those mapped, since pfd was read. */
  function Stale(s: State, e: End): int
    requires s.cur < |s.procs| && s.procs[s.cur].doing.Asking? && s.procs[s.cur].doing.ask.Compare?
  {
    s.procs[s.cur].doing.ask.pfd - FdRef(s.procs, e)
  }

  /** At the end of its loop _pipeisclosed returns exactly if no switch has come between its two samples of
      env_runs; otherwise it starts again. */
  lemma AnswerReturns(s: State)
    requires s.cur < |s.procs| && s.procs[s.cur].doing.Asking? && s.procs[s.cur].doing.ask.Compare?
    ensures var e := s.procs[s.cur].doing.e;
            && (RunAskOf(s) == Idle <==> Answers(s, e, true) || Answers(s, e, false))
            && !(Answers(s, e, true) && Answers(s, e, false))
            && (RunAskOf(s) != Idle ==> RunAskOf(s) == Asking(e, ReadFd))
  {}

  /** What _pipeisclosed answers in every run whatever: the balance of the three pages now, off by
      what happened to the fd page since it was looked at. */
  lemma AnswerLaw(others: nat, steps: seq<Step>, e: End, closed: bool)
    requires Reaches(Start(others), steps)
    requires Answers(Run(Start(others), steps), e, closed)
    ensures var s := Run(Start(others), steps);
            && (closed <==> Holders(s.procs, Data(Other(e))) + Leaving(s.procs, e) == Pending(s.procs, e) + Stale(s, e))
            && (NoGap(s) ==> Stale(s, e) == 0)
  {
    RunInv(Start(others), steps);
    var s := Run(Start(others), steps);
    assert Fresh(s, s.cur);
    Balance(s.procs, e);
  }

  /** With no gap, what _pipeisclosed answers is exactly the balance of the three pages now. */
  lemma AnswerIsBalance(others: nat, steps: seq<Step>, e: End, closed: bool)
    requires Reaches(Start(others), steps)
    requires var s := Run(Start(others), steps); Answers(s, e, closed) && NoGap(s)
    ensures var ps := Run(Start(others), steps).procs;
            closed <==> Holders(ps, Data(Other(e))) + Leaving(ps, e) == Pending(ps, e)
  {
    AnswerLaw(others, steps, e, closed);
  }

  /** Nothing is mapped through the other end, and nobody is halfway through closing this one. */
  predicate ReallyClosed(ps: seq<Proc>, e: End) {
    Gone(ps, Other(e)) && forall i :: 0 <= i < |ps| ==> Data(e) in ps[i].held ==> Fd(e) in ps[i].held
  }

  lemma ClosedIsZero(s: State, e: End)
    requires Inv(s) && NoFork(s.procs)
    ensures Pending(s.procs, e) == 0
    ensures ReallyClosed(s.procs, e) <==> Holders(s.procs, Data(Other(e))) + Leaving(s.procs, e) == 0
  {
    PendingZero(s.procs, e);
    LeavingZero(s.procs, e);
    HoldersZero(s.procs, Data(Other(e)));
    forall i | 0 <= i < |s.procs| ensures Whole(s.procs[i]) {}
  }

  /** When the answer is right, with no fork half done: exactly if the fd page is mapped as often as
      when it was looked at, or the mappings through the other end are not as many as it lost. */
  lemma RightAnswer(others: nat, steps: seq<Step>, e: End, closed: bool)
    requires Reaches(Start(others), steps)
    requires var s := Run(Start(others), steps); Answers(s, e, closed) && NoFork(s.procs)
    ensures var s := Run(Start(others), steps);
            var n := Holders(s.procs, Data(Other(e))) + Leaving(s.procs, e);
            (closed <==> ReallyClosed(s.procs, e)) <==> Stale(s, e) == 0 || (n != 0 && n != Stale(s, e))
  {
    AnswerLaw(others, steps, e, closed);
    RunInv(Start(others), steps);
    ClosedIsZero(Run(Start(others), steps), e);
  }

  /** The verdict. In every run of closing, forking, exiting and asking processes, if no switch
      fell in the gap and no fork is half done, _pipeisclosed answers "closed" exactly when no
      process maps anything through the other end and none is halfway through closing this end. */
  lemma Verdict(others: nat, steps: seq<Step>, e: End, closed: bool)
    requires Reaches(Start(others), steps)
    requires var s := Run(Start(others), steps); Answers(s, e, closed) && NoGap(s) && NoFork(s.procs)
    ensures var ps := Run(Start(others), steps).procs;
            closed <==> Gone(ps, Other(e)) && forall i :: 0 <= i < |ps| ==> Data(e) in ps[i].held ==> Fd(e) in ps[i].held
  {
    AnswerLaw(others, steps, e, closed);
    RightAnswer(others, steps, e, closed);
  }

  lemma GoneStep(s: State, step: Step, e: End)
    requires Inv(s) && Can(s, step) && Gone(s.procs, e)
    ensures Gone(Next(s, step).procs, e)
  {}

  /** A closed end stays closed: whatever happens after a true verdict, nobody gets the other
      end back. */
  lemma {:induction false} GoneForever(s: State, steps: seq<Step>, e: End)
    requires Inv(s) && Reaches(s, steps) && Gone(s.procs, e)
    ensures Gone(Run(s, steps).procs, e)
    decreases |steps|
  {
    if steps != [] {
      GoneStep(s, steps[0], e);
      StepInv(s, steps[0]);
      GoneForever(Next(s, steps[0]), steps[1..], e);
    }
  }

  // ---------- where the verdict is wrong ----------

  const ALL: set<Slot> := {Fd(Reads), Fd(Writes), Data(Reads), Data(Writes)}
  const READER: set<Slot> := {Fd(Reads), Data(Reads)}

  /** A parent with both ends and a forked child that has closed its write end. */
  function Shared(): (steps: seq<Step>) {
    [Fork, Copy, Copy, Copy, Copy, EndFork, Switch(1), CloseFd(Writes), CloseData]
  }

  lemma CopyStep(s: State, held: set<Slot>, got: set<Slot>, child: nat, k: nat, n: nat)
    requires s.cur < |s.procs| && child < |s.procs| && child != s.cur && k < 4
    requires s.procs[s.cur] == Proc(held, Copying(child, k), n) && s.procs[child] == Proc(got, Embryo, 0)
    requires FORK_ORDER[k] in held
    ensures Can(s, Copy)
    ensures Next(s, Copy) == State(s.procs[child := Proc(got + {FORK_ORDER[k]}, Embryo, 0)]
                                          [s.cur := Proc(held, Copying(child, k + 1), n)], s.cur)
  {
  }

  lemma RunCons(s: State, step: Step, t: State, rest: seq<Step>)
    requires Can(s, step) && t == Next(s, step) && Reaches(t, rest)
    ensures Reaches(s, [step] + rest) && Run(s, [step] + rest) == Run(t, rest)
  {
    assert ([step] + rest)[1..] == rest;
  }

  /** The scan of fork copies the four pages in order. */
  lemma CopiesRun(s: State, rest: seq<Step>)
    requires s == State([Proc(ALL, Copying(1, 0), 0), Proc({}, Embryo, 0)], 0)
    requires Reaches(State([Proc(ALL, Copying(1, 4), 0), Proc(ALL, Embryo, 0)], 0), rest)
    ensures Reaches(s, [Copy] + ([Copy] + ([Copy] + ([Copy] + rest))))
    ensures Run(s, [Copy] + ([Copy] + ([Copy] + ([Copy] + rest))))
            == Run(State([Proc(ALL, Copying(1, 4), 0), Proc(ALL, Embryo, 0)], 0), rest)
  {
    CopyStep(s, ALL, {}, 1, 0, 0);
    var s2 := Next(s, Copy);
    CopyStep(s2, ALL, {} + {FORK_ORDER[0]}, 1, 1, 0);
    var s3 := Next(s2, Copy);
    CopyStep(s3, ALL, {} + {FORK_ORDER[0]} + {FORK_ORDER[1]}, 1, 2, 0);
    var s4 := Next(s3, Copy);
    CopyStep(s4, ALL, {} + {FORK_ORDER[0]} + {FORK_ORDER[1]} + {FORK_ORDER[2]}, 1, 3, 0);
    var s5 := Next(s4, Copy);
    assert {} + {FORK_ORDER[0]} + {FORK_ORDER[1]} + {FORK_ORDER[2]} + {FORK_ORDER[3]} == ALL;
    assert s5.procs == [Proc(ALL, Copying(1, 4), 0), Proc(ALL, Embryo, 0)];
    hide Next, Can, Run, Reaches;
    RunCons(s4, Copy, s5, rest);
    RunCons(s3, Copy, s4, [Copy] + rest);
    RunCons(s2, Copy, s3, [Copy] + ([Copy] + rest));
    RunCons(s, Copy, s2, [Copy] + ([Copy] + ([Copy] + rest)));
  }

  lemma SharedRun()
    ensures Reaches(Start(0), Shared())
    ensures Run(Start(0), Shared()) == State([Proc(ALL, Idle, 0), Proc(READER, Idle, 1)], 1)
  {
    var s0 := Start(0);
    assert s0.procs == [Proc(ALL, Idle, 0)];
    var s1 := Next(s0, Fork);
    assert s1.procs == [Proc(ALL, Copying(1, 0), 0), Proc({}, Embryo, 0)];
    var tail := [EndFork, Switch(1), CloseFd(Writes), CloseData];
    SharedTail(State([Proc(ALL, Copying(1, 4), 0), Proc(ALL, Embryo, 0)], 0));
    CopiesRun(s1, tail);
    assert Shared()[1..] == [Copy] + ([Copy] + ([Copy] + ([Copy] + tail)));
  }

  lemma SharedTail(s: State)
    requires s == State([Proc(ALL, Copying(1, 4), 0), Proc(ALL, Embryo, 0)], 0)
    ensures Reaches(s, [EndFork, Switch(1), CloseFd(Writes), CloseData])
    ensures Run(s, [EndFork, Switch(1), CloseFd(Writes), CloseData])
            == State([Proc(ALL, Idle, 0), Proc(READER, Idle, 1)], 1)
  {
    var s6 := Next(s, EndFork);
    assert s6.procs == [Proc(ALL, Idle, 0), Proc(ALL, Idle, 0)];
    var s7 := Next(s6, Switch(1));
    assert s7.procs == [Proc(ALL, Idle, 0), Proc(ALL, Idle, 1)];
    var s8 := Next(s7, CloseFd(Writes));
    assert s8.procs == [Proc(ALL, Idle, 0), Proc(ALL - {Fd(Writes)}, Closing(Writes), 1)];
    var s9 := Next(s8, CloseData);
    assert ALL - {Fd(Writes)} - {Data(Writes)} == READER;
    assert s9.procs == [Proc(ALL, Idle, 0), Proc(READER, Idle, 1)];
    assert Run(s9, []) == s9;
    assert Run(s8, [CloseData]) == s9;
    assert Run(s7, [CloseFd(Writes), CloseData]) == s9;
    assert Run(s6, [Switch(1), CloseFd(Writes), CloseData]) == s9;
  }

  /** The parent forks again and is preempted when the new child has the read end's fd page but
      not yet its data page; the other reader asks. */
  const HALF_FORK: seq<Step> :=
    [Switch(0), Fork, Copy, Switch(1), StartAsk(Reads), RunAsk, RunAsk, RunAsk]

  /** The reader reads its fd count and is preempted before it samples env_runs; the parent
      closes its read end; the reader goes on. */
  const IN_THE_GAP: seq<Step> :=
    [StartAsk(Reads), RunAsk, Switch(0), CloseFd(Reads), CloseData, Switch(1), RunAsk, RunAsk]

  lemma CountTwo(p: Proc, q: Proc, s: Slot)
    ensures Holders([p, q], s) == (if s in p.held then 1 else 0) + (if s in q.held then 1 else 0)
  {
    assert [p, q][..1] == [p];
    assert [p][..0] == [];
    assert Holders([p], s) == (if s in p.held then 1 else 0);
  }

  lemma CountThree(p: Proc, q: Proc, r: Proc, s: Slot)
    ensures Holders([p, q, r], s)
            == (if s in p.held then 1 else 0) + (if s in q.held then 1 else 0) + (if s in r.held then 1 else 0)
  {
    assert [p, q, r][..2] == [p, q];
    CountTwo(p, q, s);
  }

  lemma HalfForkAsk(s: State)
    requires s == State([Proc(ALL, Copying(2, 1), 1), Proc(READER, Idle, 2), Proc({Fd(Reads)}, Embryo, 0)], 1)
    ensures Reaches(s, HALF_FORK[4..])
    ensures Run(s, HALF_FORK[4..])
            == State([Proc(ALL, Copying(2, 1), 1), Proc(READER, Asking(Reads, Compare(4, 2, 2, 4)), 2),
                      Proc({Fd(Reads)}, Embryo, 0)], 1)
  {
    var p, c := Proc(ALL, Copying(2, 1), 1), Proc({Fd(Reads)}, Embryo, 0);
    var q5 := Proc(READER, Asking(Reads, ReadFd), 2);
    var q6 := Proc(READER, Asking(Reads, Sample(4, 2)), 2);
    var q7 := Proc(READER, Asking(Reads, ReadData(4, 2, 2)), 2);
    CountThree(p, q5, c, Fd(Reads));
    CountThree(p, q7, c, Data(Reads));
    CountThree(p, q7, c, Data(Writes));
    assert Next(s, StartAsk(Reads)).procs == [p, q5, c];
    assert Next(State([p, q5, c], 1), RunAsk).procs == [p, q6, c];
    assert Next(State([p, q6, c], 1), RunAsk).procs == [p, q7, c];
    var t := Next(State([p, q7, c], 1), RunAsk);
    assert t.procs == [p, Proc(READER, Asking(Reads, Compare(4, 2, 2, 4)), 2), c];
    assert Run(t, []) == t;
    assert Run(State([p, q7, c], 1), [RunAsk]) == t;
    assert Run(State([p, q6, c], 1), [RunAsk, RunAsk]) == t;
    assert Run(State([p, q5, c], 1), [RunAsk, RunAsk, RunAsk]) == t;
    assert HALF_FORK[4..] == [StartAsk(Reads), RunAsk, RunAsk, RunAsk];
  }

  lemma HalfForkRun(s: State)
    requires s == State([Proc(ALL, Idle, 0), Proc(READER, Idle, 1)], 1)
    ensures Reaches(s, HALF_FORK)
    ensures Run(s, HALF_FORK)
            == State([Proc(ALL, Copying(2, 1), 1), Proc(READER, Asking(Reads, Compare(4, 2, 2, 4)), 2),
                      Proc({Fd(Reads)}, Embryo, 0)], 1)
  {
    hide Run, Reaches;
    var s1 := Next(s, Switch(0));
    assert s1.procs == [Proc(ALL, Idle, 1), Proc(READER, Idle, 1)];
    var s2 := Next(s1, Fork);
    assert s2.procs == [Proc(ALL, Copying(2, 0), 1), Proc(READER, Idle, 1), Proc({}, Embryo, 0)];
    CopyStep(s2, ALL, {}, 2, 0, 1);
    var s3 := Next(s2, Copy);
    assert {} + {FORK_ORDER[0]} == {Fd(Reads)};
    var s4 := Next(s3, Switch(1));
    assert s4.procs == [Proc(ALL, Copying(2, 1), 1), Proc(READER, Idle, 2), Proc({Fd(Reads)}, Embryo, 0)];
    HalfForkAsk(s4);
    RunCons(s3, Switch(1), s4, HALF_FORK[4..]);
    RunCons(s2, Copy, s3, [Switch(1)] + HALF_FORK[4..]);
    RunCons(s1, Fork, s2, [Copy] + ([Switch(1)] + HALF_FORK[4..]));
    RunCons(s, Switch(0), s1, [Fork] + ([Copy] + ([Switch(1)] + HALF_FORK[4..])));
    assert HALF_FORK == [Switch(0)] + ([Fork] + ([Copy] + ([Switch(1)] + HALF_FORK[4..])));
  }

  /** With a fork half done the verdict can be wrong although no switch fell in the gap: the
      reader is told that the pipe is closed while the parent still has its write end. */
  lemma HalfForkLies()
    ensures Reaches(Start(0), Shared()) && Reaches(Run(Start(0), Shared()), HALF_FORK)
    ensures var s := Run(Run(Start(0), Shared()), HALF_FORK);
            Answers(s, Reads, true) && NoGap(s) && |s.procs| > 0 && Fd(Writes) in s.procs[0].held
  {
    hide Run, Reaches;
    SharedRun();
    HalfForkRun(Run(Start(0), Shared()));
  }

  lemma InTheGapRun(s: State)
    requires s == State([Proc(ALL, Idle, 0), Proc(READER, Idle, 1)], 1)
    ensures Reaches(s, IN_THE_GAP)
    ensures Run(s, IN_THE_GAP)
            == State([Proc({Fd(Writes), Data(Writes)}, Idle, 1), Proc(READER, Asking(Reads, Compare(3, 1, 2, 3)), 2)], 1)
  {
    hide Run, Reaches;
    var s1 := Next(s, StartAsk(Reads));
    assert s1.procs == [Proc(ALL, Idle, 0), Proc(READER, Asking(Reads, ReadFd), 1)];
    CountTwo(s1.procs[0], s1.procs[1], Fd(Reads));
    var s2 := Next(s1, RunAsk);
    assert s2.procs == [Proc(ALL, Idle, 0), Proc(READER, Asking(Reads, Sample(3, 1)), 1)];
    var s3 := Next(s2, Switch(0));
    assert s3.procs == [Proc(ALL, Idle, 1), Proc(READER, Asking(Reads, Sample(3, 1)), 1)];
    InTheGapTail(s3);
    RunCons(s2, Switch(0), s3, IN_THE_GAP[3..]);
    RunCons(s1, RunAsk, s2, [Switch(0)] + IN_THE_GAP[3..]);
    RunCons(s, StartAsk(Reads), s1, [RunAsk] + ([Switch(0)] + IN_THE_GAP[3..]));
    assert IN_THE_GAP == [StartAsk(Reads)] + ([RunAsk] + ([Switch(0)] + IN_THE_GAP[3..]));
  }

  lemma InTheGapTail(s3: State)
    requires s3 == State([Proc(ALL, Idle, 1), Proc(READER, Asking(Reads, Sample(3, 1)), 1)], 0)
    ensures Reaches(s3, IN_THE_GAP[3..])
    ensures Run(s3, IN_THE_GAP[3..])
            == State([Proc({Fd(Writes), Data(Writes)}, Idle, 1), Proc(READER, Asking(Reads, Compare(3, 1, 2, 3)), 2)], 1)
  {
    var s4 := Next(s3, CloseFd(Reads));
    assert s4.procs == [Proc(ALL - {Fd(Reads)}, Closing(Reads), 1), s3.procs[1]];
    var s5 := Next(s4, CloseData);
    var w := Proc({Fd(Writes), Data(Writes)}, Idle, 1);
    assert ALL - {Fd(Reads)} - {Data(Reads)} == w.held;
    assert s5.procs == [w, s3.procs[1]];
    var s6 := Next(s5, Switch(1));
    assert s6.procs == [w, Proc(READER, Asking(Reads, Sample(3, 1)), 2)];
    var s7 := Next(s6, RunAsk);
    assert s7.procs == [w, Proc(READER, Asking(Reads, ReadData(3, 1, 2)), 2)];
    CountTwo(s7.procs[0], s7.procs[1], Data(Reads));
    CountTwo(s7.procs[0], s7.procs[1], Data(Writes));
    var s8 := Next(s7, RunAsk);
    assert s8.procs == [w, Proc(READER, Asking(Reads, Compare(3, 1, 2, 3)), 2)];
    assert Run(s8, []) == s8;
    assert Run(s7, [RunAsk]) == s8;
    assert Run(s6, [RunAsk, RunAsk]) == s8;
    assert Run(s5, [Switch(1), RunAsk, RunAsk]) == s8;
    assert Run(s4, [CloseData, Switch(1), RunAsk, RunAsk]) == s8;
    assert IN_THE_GAP[3..] == [CloseFd(Reads), CloseData, Switch(1), RunAsk, RunAsk];
  }

  /** A switch between pageref(fd) and the sample of env_runs goes unnoticed and the verdict can
      be wrong although nothing is half done: a reader closes in the gap, and the other reader
      is told that the pipe is closed while the write end is open. */
  lemma GapLies()
    ensures Reaches(Start(0), Shared()) && Reaches(Run(Start(0), Shared()), IN_THE_GAP)
    ensures var s := Run(Run(Start(0), Shared()), IN_THE_GAP);
            Answers(s, Reads, true) && NoFork(s.procs) && |s.procs| > 0 && Fd(Writes) in s.procs[0].held
  {
    hide Run, Reaches;
    SharedRun();
    InTheGapRun(Run(Start(0), Shared()));
  }
}
