/** The rendezvous of sys_ipc_recv and sys_ipc_can_send (lib/syscall_all.c) with the library
    calls ipc_recv and ipc_send (user/ipc.c) around it. System calls are atomic; between any two
    of them, and between the reads ipc_recv makes after waking up, anyone else may run. */
module Ipc {
  import opened Wrappers
  import opened EnvIds
  import opened Mmu

  const UTOP: nat := 0x7f40_0000
  const BY2PG: nat := 4096

  /** A page-table entry: the frame it names and its flags. */
  datatype Mapping = Mapping(page: Frame, perm: Flags)

  type Space = map<nat, Mapping>     // virtual page number to mapping

  /** The fields of struct Env that carry a message. The perm argument, a 32-bit number, is split like a
      table word. */
  datatype Msg = Msg(from: nat, perm: Word, value: nat)

  datatype Port = Port(recving: bool, dstva: nat, msg: Msg)

  datatype Kernel = Kernel(t: Table, ports: seq<Port>, spaces: seq<Space>)

  datatype Code = Ok | Inval | NotRecv

  predicate Sized(k: Kernel) { Slots(k.t) && |k.ports| == NENV && |k.spaces| == NENV }

  function SetStatus(t: Table, i: nat, st: Status): Table
    requires i < |t.envs|
  {
    t.(envs := t.envs[i := t.envs[i].(status := st)])
  }

  // ---------- the two system calls ----------

  function IpcRecv(k: Kernel, cur: nat, dstva: nat): Kernel
    requires Sized(k) && cur < NENV
  {
    if dstva >= UTOP then k
    else k.(ports := k.ports[cur := k.ports[cur].(recving := true, dstva := dstva)],
            t := SetStatus(k.t, cur, NotRunnable))
  }

  /** What page_lookup finds at va. */
  function PageAt(sp: Space, va: nat): Option<Frame> {
    if va / BY2PG in sp && sp[va / BY2PG].perm.v then Some(sp[va / BY2PG].page) else None
  }

  /** The entry that a send offers: for what the sender has at srcva, if anything, with the high bits of
      perm or'ed into the frame number. */
  function Offer(k: Kernel, cur: nat, srcva: nat, perm: Word): Option<Mapping>
    requires Sized(k) && cur < NENV
  {
    var page := PageAt(k.spaces[cur], srcva);
    if page.Some? then Some(Mapping(Or(page.value, perm.pfn), perm.fl.(v := true))) else None
  }

  /** `noMem` says whether page_insert would find no page for a page table. */
  function CanSend(k: Kernel, cur: nat, whom: nat, value: nat, srcva: nat, perm: Word, noMem: bool): (Kernel, Code)
    requires Sized(k) && cur < NENV
  {
    if srcva >= UTOP then (k, Inval)
    else
      match Envid2Env(k.t, cur, whom, false)
      case BadEnv => (k, Inval)
      case Found(e) =>
        if !k.ports[e].recving then (k, NotRecv)
        else
          var offer := Offer(k, cur, srcva, perm);
          if offer.Some? && noMem then (k, Inval)
          else (Deliver(k, e, Msg(k.t.envs[cur].id, perm.(fl := perm.fl.(v := true, r := true)), value), offer), Ok)
  }

  function Deliver(k: Kernel, e: nat, msg: Msg, offer: Option<Mapping>): Kernel
    requires Sized(k) && e < NENV
  {
    var spaces := if offer.Some?
                  then k.spaces[e := k.spaces[e][k.ports[e].dstva / BY2PG := offer.value]]
                  else k.spaces;
    Kernel(SetStatus(k.t, e, Runnable), k.ports[e := k.ports[e].(recving := false, msg := msg)], spaces)
  }

  // ---------- the library calls and their runs ----------

  /** Where an environment's user code stands. In(dstva, 0, ..) is inside sys_ipc_recv or just
      back from it; stages 1 and 2 have read the sender, then the permissions. */
  datatype Pc =
    | Idle
    | In(dstva: nat, stage: nat, from: nat, perm: Word)
    | Sending(whom: nat, value: nat, srcva: nat, perm: Word)
    | Panicked
    | Newborn
    | Gone

  /** What an ipc_send that succeeded was called with: the caller's id, the arguments, and the page the
      caller had at srcva. */
  datatype Sent = Sent(from: nat, value: nat, perm: Word, page: Option<Frame>)

  /** What an ipc_recv(dstva) returned, and what was mapped at dstva when it did. */
  datatype Receipt = Receipt(dstva: nat, msg: Msg, mapped: Option<Mapping>)

  /** Since the slot's environment was created: the successful sends to it, the results of its
      ipc_recv calls, and the message fields it inherited from the slot. */
  datatype Log = Log(sent: seq<Sent>, got: seq<Receipt>, birth: Msg)

  datatype State = State(k: Kernel, cur: nat, pcs: seq<Pc>, logs: seq<Log>)

  datatype Step =
    | Switch(to: nat)
    | Recv(dstva: nat)
    | Read
    | Send(whom: nat, value: nat, srcva: nat, perm: Word)
    | TrySend(noMem: bool)
    | Remap(vpn: nat, m: Option<Mapping>)
    | Spawn
    | Start(i: nat)
    | Destroy(i: nat)

  predicate Shape(s: State) {
    Sized(s.k) && s.cur < NENV && |s.pcs| == NENV && |s.logs| == NENV
  }

  predicate Can(s: State, step: Step) {
    Shape(s)
    && (step.Switch? || s.k.t.envs[s.cur].status == Runnable)
    && match step
       case Switch(to) => to < NENV && s.k.t.envs[to].status == Runnable
       case Recv(_) => s.pcs[s.cur].Idle?
       case Read => s.pcs[s.cur].In? && s.pcs[s.cur].stage < 3
       case Send(_, _, _, _) => s.pcs[s.cur].Idle?
       case TrySend(_) => s.pcs[s.cur].Sending?
       case Remap(_, _) => s.pcs[s.cur].Idle?
       case Spawn => s.pcs[s.cur].Idle?
       case Start(i) => i < NENV && s.pcs[i].Newborn? && s.pcs[s.cur].Idle?
       case Destroy(i) => i < NENV && s.pcs[s.cur].Idle? && s.k.t.envs[i].status != Free && !s.k.ports[i].recving
  }

  function At(sp: Space, va: nat): Option<Mapping> {
    if va / BY2PG in sp then Some(sp[va / BY2PG]) else None
  }

  function ReadStep(s: State): State
    requires Can(s, Read)
  {
    var me := s.cur;
    var pc := s.pcs[me];
    var msg := s.k.ports[me].msg;
    if pc.stage == 0 then s.(pcs := s.pcs[me := pc.(stage := 1, from := msg.from)])
    else if pc.stage == 1 then s.(pcs := s.pcs[me := pc.(stage := 2, perm := msg.perm)])
    else
      var r := Receipt(pc.dstva, Msg(pc.from, pc.perm, msg.value), At(s.k.spaces[me], pc.dstva));
      s.(pcs := s.pcs[me := Idle], logs := s.logs[me := s.logs[me].(got := s.logs[me].got + [r])])
  }

  function TrySendStep(s: State, noMem: bool): State
    requires Can(s, TrySend(noMem))
  {
    var pc := s.pcs[s.cur];
    var (k, r) := CanSend(s.k, s.cur, pc.whom, pc.value, pc.srcva, pc.perm, noMem);
    match r
    case NotRecv => s
    case Inval => s.(pcs := s.pcs[s.cur := Panicked])
    case Ok =>
      var e := Envid2Env(s.k.t, s.cur, pc.whom, false);
      if e.BadEnv? then s
      else
        var sent := Sent(s.k.t.envs[s.cur].id, pc.value, pc.perm, PageAt(s.k.spaces[s.cur], pc.srcva));
        State(k, s.cur, s.pcs[s.cur := Idle], s.logs[e.i := s.logs[e.i].(sent := s.logs[e.i].sent + [sent])])
  }

  function SpawnStep(s: State): State
    requires Can(s, Spawn)
  {
    var (t, r) := Alloc(s.k.t, s.k.t.envs[s.cur].id);
    if r.BadEnv? then s
    else State(s.k.(t := SetStatus(t, r.i, NotRunnable), spaces := s.k.spaces[r.i := map[]]), s.cur,
               s.pcs[r.i := Newborn], s.logs[r.i := Log([], [], s.k.ports[r.i].msg)])
  }

  function Next(s: State, step: Step): State
    requires Can(s, step)
  {
    match step
    case Switch(to) => s.(cur := to)
    case Recv(dstva) => s.(k := IpcRecv(s.k, s.cur, dstva), pcs := s.pcs[s.cur := In(dstva, 0, 0, ZERO)])
    case Read => ReadStep(s)
    case Send(whom, value, srcva, perm) => s.(pcs := s.pcs[s.cur := Sending(whom, value, srcva, perm)])
    case TrySend(noMem) => TrySendStep(s, noMem)
    case Remap(vpn, m) =>
      var sp := s.k.spaces[s.cur];
      s.(k := s.k.(spaces := s.k.spaces[s.cur := if m.Some? then sp[vpn := m.value] else sp - {vpn}]))
    case Spawn => SpawnStep(s)
    case Start(i) => s.(k := s.k.(t := SetStatus(s.k.t, i, Runnable)), pcs := s.pcs[i := Idle])
    case Destroy(i) => s.(k := s.k.(t := Release(s.k.t, i)), pcs := s.pcs[i := Gone])
  }

  // ---------- the invariant, slot by slot ----------

  /** The results of the calls that waited, in order. */
  function Waited(got: seq<Receipt>): seq<Receipt> {
    if got == [] then []
    else Waited(got[..|got| - 1]) + (if got[|got| - 1].dstva < UTOP then [got[|got| - 1]] else [])
  }

  /** The message of a send: the sender, the value, and perm with the bits PTE_V and PTE_R. */
  predicate Says(msg: Msg, s: Sent) {
    msg.from == s.from && msg.value == s.value && msg.perm == Word(s.perm.pfn, s.perm.fl.(v := true, r := true))
  }

  /** If the sender passed a page, the receiver has it, with the sender's perm. */
  predicate Grants(m: Option<Mapping>, s: Sent) {
    s.page.Some? ==> m == Some(Mapping(Or(s.page.value, s.perm.pfn), s.perm.fl.(v := true)))
  }

  predicate Matches(r: Receipt, s: Sent) { Says(r.msg, s) && Grants(r.mapped, s) }

  /** The calls that waited returned the successful sends, in order. */
  predicate InOrder(log: Log) {
    |Waited(log.got)| <= |log.sent|
    && forall n :: 0 <= n < |Waited(log.got)| ==> Matches(Waited(log.got)[n], log.sent[n])
  }

  function Newest(log: Log): Msg { if log.got == [] then log.birth else log.got[|log.got| - 1].msg }

  /** A call that did not wait returned once more what the call before it had returned. */
  predicate Echoes(got: seq<Receipt>, birth: Msg) {
    forall n :: 0 <= n < |got| ==> EchoAt(got, birth, n)
  }

  predicate EchoAt(got: seq<Receipt>, birth: Msg, n: nat)
    requires n < |got|
  {
    got[n].dstva >= UTOP ==> got[n].msg == if n == 0 then birth else got[n - 1].msg
  }

  predicate AllRead(log: Log, port: Port) {
    |log.sent| == |Waited(log.got)| && port.msg == Newest(log)
  }

  /** One message has been delivered and not yet returned; it is still what the fields hold. */
  predicate OneUnread(log: Log, port: Port, sp: Space, dstva: nat) {
    |log.sent| == |Waited(log.got)| + 1
    && Says(port.msg, log.sent[|log.sent| - 1])
    && Grants(At(sp, dstva), log.sent[|log.sent| - 1])
  }

  predicate SlotOk(st: Status, port: Port, sp: Space, pc: Pc, log: Log) {
    && (st == Free <==> pc.Gone?)
    && (port.recving ==> pc.In? && pc.stage == 0 && pc.dstva < UTOP && pc.dstva == port.dstva && st == NotRunnable)
    && (!pc.Gone? ==> InOrder(log) && Echoes(log.got, log.birth))
    && (match pc
        case Gone => true
        case In(dstva, stage, from, perm) =>
          && stage < 3 && (stage > 0 ==> from == port.msg.from) && (stage > 1 ==> perm == port.msg.perm)
          && (if dstva < UTOP && !port.recving then OneUnread(log, port, sp, dstva) else AllRead(log, port))
        case _ => AllRead(log, port))
  }

  predicate SlotInv(s: State, i: nat)
    requires Shape(s) && i < NENV
  {
    SlotOk(s.k.t.envs[i].status, s.k.ports[i], s.k.spaces[i], s.pcs[i], s.logs[i])
  }

  predicate Inv(s: State) {
    Shape(s) && FreeOk(s.k.t) && forall i :: 0 <= i < NENV ==> SlotInv(s, i)
  }

  lemma WaitedSnoc(got: seq<Receipt>, r: Receipt)
    ensures Waited(got + [r]) == Waited(got) + (if r.dstva < UTOP then [r] else [])
  {
    assert (got + [r])[..|got|] == got;
  }

  lemma EchoesSnoc(got: seq<Receipt>, birth: Msg, r: Receipt)
    requires Echoes(got, birth) && EchoAt(got + [r], birth, |got|)
    ensures Echoes(got + [r], birth)
  {
    forall n | 0 <= n < |got| ensures EchoAt(got + [r], birth, n) { assert EchoAt(got, birth, n); }
  }

  lemma ReturnSlot(st: Status, port: Port, sp: Space, pc: Pc, log: Log, r: Receipt)
    requires SlotOk(st, port, sp, pc, log) && pc.In? && pc.stage == 2
    requires r == Receipt(pc.dstva, Msg(pc.from, pc.perm, port.msg.value), At(sp, pc.dstva))
    ensures SlotOk(st, port, sp, Idle, log.(got := log.got + [r]))
  {
    WaitedSnoc(log.got, r);
    EchoesSnoc(log.got, log.birth, r);
    hide Echoes;
  }

  lemma ReadInv(s: State)
    requires Inv(s) && Can(s, Read)
    ensures Inv(Next(s, Read))
  {
    var t := Next(s, Read);
    assert SlotInv(s, s.cur);
    if s.pcs[s.cur].stage == 2 {
      var me := s.cur;
      ReturnSlot(s.k.t.envs[me].status, s.k.ports[me], s.k.spaces[me], s.pcs[me], s.logs[me],
                 t.logs[me].got[|s.logs[me].got|]);
    }
    forall i | 0 <= i < NENV ensures SlotInv(t, i) { assert SlotInv(s, i); }
  }

  lemma StatusFreeOk(t: Table, i: nat, st: Status)
    requires FreeOk(t) && i < NENV && t.envs[i].status != Free && st != Free
    ensures FreeOk(SetStatus(t, i, st))
  {}

  lemma RecvInv(s: State, dstva: nat)
    requires Inv(s) && Can(s, Recv(dstva))
    ensures Inv(Next(s, Recv(dstva)))
  {
    var t := Next(s, Recv(dstva));
    assert SlotInv(s, s.cur);
    StatusFreeOk(s.k.t, s.cur, NotRunnable);
    forall i | 0 <= i < NENV ensures SlotInv(t, i) { assert SlotInv(s, i); }
  }

  /** A delivery hits only a slot that is blocked in its receive. */
  lemma DeliverSlot(port: Port, sp: Space, pc: Pc, log: Log, msg: Msg, grant: Option<Mapping>, sent: Sent)
    requires SlotOk(NotRunnable, port, sp, pc, log) && port.recving
    requires Says(msg, sent) && Grants(grant, sent) && (grant.Some? <==> sent.page.Some?)
    ensures SlotOk(Runnable, port.(recving := false, msg := msg),
                   if grant.Some? then sp[port.dstva / BY2PG := grant.value] else sp,
                   pc, log.(sent := log.sent + [sent]))
  {
    hide Echoes, EchoAt, Or;
  }

  lemma TrySendHit(s: State, noMem: bool, e: nat)
    requires Inv(s) && Can(s, TrySend(noMem))
    requires var pc := s.pcs[s.cur];
             CanSend(s.k, s.cur, pc.whom, pc.value, pc.srcva, pc.perm, noMem).1 == Ok
             && Envid2Env(s.k.t, s.cur, pc.whom, false) == Found(e)
    ensures Shape(Next(s, TrySend(noMem))) && FreeOk(Next(s, TrySend(noMem)).k.t)
    ensures e < NENV && SlotInv(Next(s, TrySend(noMem)), e)
  {
    hide FreeOk, InOrder, AllRead, OneUnread;
    var pc := s.pcs[s.cur];
    var (k, r) := CanSend(s.k, s.cur, pc.whom, pc.value, pc.srcva, pc.perm, noMem);
    assert SlotInv(s, s.cur);
    assert SlotInv(s, e);
    DeliverSlot(s.k.ports[e], s.k.spaces[e], s.pcs[e], s.logs[e], k.ports[e].msg, Offer(s.k, s.cur, pc.srcva, pc.perm),
                Sent(s.k.t.envs[s.cur].id, pc.value, pc.perm, PageAt(s.k.spaces[s.cur], pc.srcva)));
    StatusFreeOk(s.k.t, e, Runnable);
  }

  lemma TrySendMiss(s: State, noMem: bool, i: nat)
    requires Inv(s) && Can(s, TrySend(noMem)) && i < NENV
    requires var pc := s.pcs[s.cur];
             CanSend(s.k, s.cur, pc.whom, pc.value, pc.srcva, pc.perm, noMem).1 == Ok
             ==> Envid2Env(s.k.t, s.cur, pc.whom, false) != Found(i)
    ensures Shape(Next(s, TrySend(noMem))) && SlotInv(Next(s, TrySend(noMem)), i)
  {
    hide FreeOk, InOrder, AllRead, OneUnread, Echoes;
    assert SlotInv(s, i);
  }

  lemma TrySendInv(s: State, noMem: bool)
    requires Inv(s) && Can(s, TrySend(noMem))
    ensures Inv(Next(s, TrySend(noMem)))
  {
    hide FreeOk, SlotInv;
    var t := Next(s, TrySend(noMem));
    var pc := s.pcs[s.cur];
    var e := if CanSend(s.k, s.cur, pc.whom, pc.value, pc.srcva, pc.perm, noMem).1 == Ok
             then Envid2Env(s.k.t, s.cur, pc.whom, false) else BadEnv;
    if e.Found? { TrySendHit(s, noMem, e.i); }
    forall i | 0 <= i < NENV ensures Shape(t) && SlotInv(t, i) {
      if e != Found(i) { TrySendMiss(s, noMem, i); }
    }
  }

  lemma SpawnInv(s: State)
    requires Inv(s) && Can(s, Spawn)
    ensures Inv(Next(s, Spawn))
  {
    var t := Next(s, Spawn);
    AllocFreeOk(s.k.t, s.k.t.envs[s.cur].id);
    var (tt, r) := Alloc(s.k.t, s.k.t.envs[s.cur].id);
    if r.Found? {
      assert r.i in s.k.t.free;
      assert SlotInv(s, r.i);
      StatusFreeOk(tt, r.i, NotRunnable);
      forall i | 0 <= i < NENV ensures SlotInv(t, i) { assert SlotInv(s, i); }
    }
  }

  lemma OtherInv(s: State, step: Step)
    requires Inv(s) && Can(s, step)
    requires step.Switch? || step.Send? || step.Remap? || step.Start? || step.Destroy?
    ensures Inv(Next(s, step))
  {
    var t := Next(s, step);
    if step.Start? {
      assert SlotInv(s, step.i);
      StatusFreeOk(s.k.t, step.i, Runnable);
    }
    if step.Destroy? { ReleaseFreeOk(s.k.t, step.i); }
    assert SlotInv(s, s.cur);
    forall i | 0 <= i < NENV ensures SlotInv(t, i) { assert SlotInv(s, i); }
  }

  lemma StepInv(s: State, step: Step)
    requires Inv(s) && Can(s, step)
    ensures Inv(Next(s, step))
  {
    match step
    case Read => ReadInv(s);
    case Recv(dstva) => RecvInv(s, dstva);
    case TrySend(noMem) => TrySendInv(s, noMem);
    case Spawn => SpawnInv(s);
    case _ => OtherInv(s, step);
  }

  // ---------- runs ----------

  predicate Reaches(s: State, steps: seq<Step>)
    decreases |steps|
  {
    steps == [] || (Can(s, steps[0]) && Reaches(Next(s, steps[0]), steps[1..]))
  }

  function Run(s: State, steps: seq<Step>): State
    requires Reaches(s, steps)
    decreases |steps|
  {
    if steps == [] then s else Run(Next(s, steps[0]), steps[1..])
  }

  lemma {:induction false} RunInv(s: State, steps: seq<Step>)
    requires Inv(s) && Reaches(s, steps)
    ensures Inv(Run(s, steps))
    decreases |steps|
  {
    hide Inv, Can, Next;
    if steps != [] {
      StepInv(s, steps[0]);
      RunInv(Next(s, steps[0]), steps[1..]);
    }
  }

  predicate QuietSlot(s: State, i: nat)
    requires Shape(s) && i < NENV
  {
    && (s.pcs[i] == if s.k.t.envs[i].status == Free then Gone else Idle)
    && !s.k.ports[i].recving
    && s.logs[i] == Log([], [], s.k.ports[i].msg)
  }

  /** No environment is in the middle of anything; what the message fields hold is arbitrary. */
  predicate Begin(s: State) {
    Shape(s) && FreeOk(s.k.t) && forall i :: 0 <= i < NENV ==> QuietSlot(s, i)
  }

  lemma BeginInv(s: State)
    requires Begin(s)
    ensures Inv(s)
  {
    forall i | 0 <= i < NENV ensures SlotInv(s, i) { assert QuietSlot(s, i); }
  }

  predicate Unread(s: State, i: nat)
    requires Shape(s) && i < NENV
  {
    s.pcs[i].In? && s.pcs[i].dstva < UTOP && !s.k.ports[i].recving
  }

  /** Exactly once, in order: in every run, for every live environment, the n-th ipc_recv that
      waited returned the sender, permissions and value of the n-th successful ipc_send to it,
      with the granted page mapped at its dstva; at most one send is ahead of the receives, and
      one is exactly while a receive has been served and has not yet returned. A receive with
      dstva at or above UTOP does not wait, and only repeats the result before it. */
  lemma ExactlyOnce(s: State, steps: seq<Step>, i: nat)
    requires Begin(s) && Reaches(s, steps) && i < NENV
    ensures var s' := Run(s, steps);
            Shape(s') && (s'.k.t.envs[i].status != Free ==>
              && InOrder(s'.logs[i]) && Echoes(s'.logs[i].got, s'.logs[i].birth)
              && |s'.logs[i].sent| - |Waited(s'.logs[i].got)| == if Unread(s', i) then 1 else 0)
  {
    BeginInv(s);
    RunInv(s, steps);
    assert SlotInv(Run(s, steps), i);
  }

  lemma UnreadSend(s: State, step: Step, i: nat)
    requires Inv(s) && Can(s, step) && i < NENV && Unread(s, i) && step.TrySend?
    ensures Shape(Next(s, step))
    ensures var t := Next(s, step);
            && t.k.ports[i] == s.k.ports[i] && t.k.spaces[i] == s.k.spaces[i] && t.logs[i].sent == s.logs[i].sent
            && !t.pcs[i].Gone?
  {
    hide FreeOk, InOrder, Echoes, Waited;
    assert SlotInv(s, i);
  }

  lemma UnreadOther(s: State, step: Step, i: nat)
    requires Inv(s) && Can(s, step) && i < NENV && Unread(s, i) && step != Destroy(i) && !step.TrySend?
    ensures Shape(Next(s, step))
    ensures var t := Next(s, step);
            && t.k.ports[i] == s.k.ports[i] && t.k.spaces[i] == s.k.spaces[i] && t.logs[i].sent == s.logs[i].sent
            && !t.pcs[i].Gone?
  {
    hide FreeOk, InOrder, Echoes, Waited, CanSend;
    assert SlotInv(s, i);
    if step.Spawn? { SpawnElsewhere(s, i); }
  }

  /** A step that is not the environment's own destruction leaves its unread message alone. */
  lemma UnreadKept(s: State, step: Step, i: nat)
    requires Inv(s) && Can(s, step) && i < NENV && Unread(s, i) && step != Destroy(i)
    ensures Shape(Next(s, step))
    ensures var t := Next(s, step);
            && t.k.ports[i] == s.k.ports[i] && t.k.spaces[i] == s.k.spaces[i] && t.logs[i].sent == s.logs[i].sent
            && !t.pcs[i].Gone?
  {
    hide *;
    if step.TrySend? { UnreadSend(s, step, i); } else { UnreadOther(s, step, i); }
  }

  /** Until the receiver has returned, or is destroyed, no step of anyone touches the message
      delivered to it. */
  lemma NoOverwrite(s: State, step: Step, i: nat)
    requires Inv(s) && Can(s, step) && i < NENV && Unread(s, i) && step != Destroy(i)
    ensures Shape(Next(s, step))
    ensures var s' := Next(s, step);
            && s'.k.ports[i] == s.k.ports[i] && s'.k.spaces[i] == s.k.spaces[i]
            && s'.logs[i].sent == s.logs[i].sent
            && (Unread(s', i) || |Waited(s'.logs[i].got)| == |s'.logs[i].sent|)
  {
    UnreadKept(s, step, i);
    StepInv(s, step);
    var t := Next(s, step);
    assert SlotInv(t, i);
    hide Inv, Next, SlotInv, Can, InOrder, Echoes;
  }

  lemma SpawnElsewhere(s: State, i: nat)
    requires Inv(s) && Can(s, Spawn) && i < NENV && s.k.t.envs[i].status != Free
    ensures var (t, r) := Alloc(s.k.t, s.k.t.envs[s.cur].id); r != Found(i)
  {}

  /** A send fails without a trace or changes nothing but the receiver's slot, and it can only
      reach an environment that is blocked in sys_ipc_recv. */
  lemma SendTouchesOne(s: State, whom: nat, value: nat, srcva: nat, perm: Word, noMem: bool, i: nat)
    requires Inv(s) && i < NENV
    ensures var (k, r) := CanSend(s.k, s.cur, whom, value, srcva, perm, noMem);
            Sized(k) && ((r != Ok || Envid2Env(s.k.t, s.cur, whom, false) != Found(i)) ==>
              k.ports[i] == s.k.ports[i] && k.spaces[i] == s.k.spaces[i] && k.t.envs[i] == s.k.t.envs[i])
    ensures var (k, r) := CanSend(s.k, s.cur, whom, value, srcva, perm, noMem);
            r == Ok && Envid2Env(s.k.t, s.cur, whom, false) == Found(i) ==>
              s.pcs[i].In? && s.pcs[i].stage == 0 && s.k.t.envs[i].status == NotRunnable
              && k.t.envs[i].status == Runnable
              && k.ports[i].msg == Msg(s.k.t.envs[s.cur].id, Word(perm.pfn, perm.fl.(v := true, r := true)), value)
  {
    hide Or, InOrder, Echoes, Waited;
    assert SlotInv(s, i);
  }

  /** When each answer is given: by the address, by the receiver's waiting, and by the memory for a page
      that has to be mapped. A send that fails changes nothing. */
  lemma SendAnswer(k: Kernel, cur: nat, whom: nat, value: nat, srcva: nat, perm: Word, noMem: bool)
    requires Sized(k) && cur < NENV
    ensures var (k', r) := CanSend(k, cur, whom, value, srcva, perm, noMem);
            var e := Envid2Env(k.t, cur, whom, false);
            var vpn := srcva / BY2PG;
            var mapped := vpn in k.spaces[cur] && k.spaces[cur][vpn].perm.v;
            && (r == Ok <==> srcva < UTOP && e.Found? && k.ports[e.i].recving && !(mapped && noMem))
            && (r == NotRecv <==> srcva < UTOP && e.Found? && !k.ports[e.i].recving)
            && (r != Ok ==> k' == k)
  {
    hide Or, Envid2Env;
  }

  /** What a send that succeeds leaves: in the receiver's fields the sender's id, the value and the
      permissions; at its dstva the page the sender has at srcva, exactly if it has one; the receiver
      runnable and no longer receiving; and everything else as it was. */
  lemma SendDelivers(k: Kernel, cur: nat, whom: nat, value: nat, srcva: nat, perm: Word, noMem: bool, e: nat)
    requires Sized(k) && cur < NENV && Envid2Env(k.t, cur, whom, false) == Found(e)
    requires CanSend(k, cur, whom, value, srcva, perm, noMem).1 == Ok
    ensures var k' := CanSend(k, cur, whom, value, srcva, perm, noMem).0;
            var vpn := srcva / BY2PG;
            var dst := k.ports[e].dstva / BY2PG;
            && Sized(k') && e < NENV
            && k'.ports[e] == Port(false, k.ports[e].dstva,
                                   Msg(k.t.envs[cur].id, Word(perm.pfn, perm.fl.(v := true, r := true)), value))
            && k'.t == k.t.(envs := k.t.envs[e := k.t.envs[e].(status := Runnable)])
            && (if vpn in k.spaces[cur] && k.spaces[cur][vpn].perm.v
                then k'.spaces[e] == k.spaces[e][dst := Mapping(Or(k.spaces[cur][vpn].page, perm.pfn), perm.fl.(v := true))]
                else k'.spaces[e] == k.spaces[e])
            && forall i :: 0 <= i < NENV && i != e ==> k'.ports[i] == k.ports[i] && k'.spaces[i] == k.spaces[i]
  {
    hide Or, Envid2Env;
  }

  /** A receive with dstva below UTOP blocks the caller and marks it as receiving at dstva; any other is
      refused without a trace. */
  lemma RecvBlocks(k: Kernel, cur: nat, dstva: nat)
    requires Sized(k) && cur < NENV
    ensures var k' := IpcRecv(k, cur, dstva);
            && Sized(k') && k'.spaces == k.spaces
            && (dstva >= UTOP ==> k' == k)
            && (dstva < UTOP ==> k'.ports[cur] == Port(true, dstva, k.ports[cur].msg)
                                 && k'.t.envs[cur] == k.t.envs[cur].(status := NotRunnable))
            && (forall i :: 0 <= i < NENV && i != cur ==> k'.ports[i] == k.ports[i] && k'.t.envs[i] == k.t.envs[i])
            && k'.t == k.t.(envs := k'.t.envs)
  {}

  // ---------- the system calls, updating Env fields in place ----------

  class Envs {
    const ports: array<Port>
    const spaces: array<Space>
    var t: Table
    var cur: nat

    ghost function K(): Kernel
      reads this, ports, spaces
    {
      Kernel(t, ports[..], spaces[..])
    }

    ghost predicate Valid()
      reads this, ports, spaces
    {
      Sized(K()) && cur < NENV
    }

    constructor (k: Kernel, c: nat)
      requires Sized(k) && c < NENV
      ensures Valid() && K() == k && cur == c && fresh(ports) && fresh(spaces)
    {
      ports := new Port[NENV](i requires 0 <= i < NENV && Sized(k) => k.ports[i]);
      spaces := new Space[NENV](i requires 0 <= i < NENV && Sized(k) => k.spaces[i]);
      t, cur := k.t, c;
      new;
      assert ports[..] == k.ports && spaces[..] == k.spaces;
    }

    method SysIpcRecv(dstva: nat)
      requires Valid()
      modifies ports, this`t
      ensures Valid() && K() == IpcRecv(old(K()), cur, dstva)
    {
      if dstva >= UTOP { return; }
      ports[cur] := ports[cur].(recving := true);
      ports[cur] := ports[cur].(dstva := dstva);
      t := SetStatus(t, cur, NotRunnable);
      assert ports[..] == old(ports[..])[cur := ports[cur]];
    }

    method SysIpcCanSend(whom: nat, value: nat, srcva: nat, perm: Word, noMem: bool) returns (r: Code)
      requires Valid()
      modifies ports, spaces, this`t
      ensures Valid() && (K(), r) == CanSend(old(K()), cur, whom, value, srcva, perm, noMem)
    {
      hide Or;
      if srcva >= UTOP { return Inval; }
      var found := Envid2Env(t, cur, whom, false);
      if found.BadEnv? { return Inval; }
      var e := found.i;
      if !ports[e].recving { return NotRecv; }
      var p := PageAt(spaces[cur], srcva);
      if p.Some? {
        if noMem { return Inval; }
        spaces[e] := spaces[e][ports[e].dstva / BY2PG := Mapping(Or(p.value, perm.pfn), perm.fl.(v := true))];
      }
      var from := t.envs[cur].id;
      ports[e] := ports[e].(msg := ports[e].msg.(perm := perm.(fl := perm.fl.(v := true, r := true))));
      ports[e] := ports[e].(recving := false);
      t := SetStatus(t, e, Runnable);
      ports[e] := ports[e].(msg := ports[e].msg.(value := value));
      ports[e] := ports[e].(msg := ports[e].msg.(from := from));
      r := Ok;
      assert ports[..] == old(ports[..])[e := ports[e]];
      assert spaces[..] == old(spaces[..])[e := spaces[e]];
    }
  }
}
