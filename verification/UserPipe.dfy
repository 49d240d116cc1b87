/** fd_alloc (user/fd.c) and pipe() (user/pipe.c) as the program runs them: a scan of its own page
    tables and a chain of system calls with exits that fall through to one another. */
module UserPipe {
  import opened Wrappers
  import opened Mmu
  import opened Pmap
  import opened MemCalls
  import opened PipeMake
  import PipeFail
  import Kernel

  const PERM: nat := 0x604       // PTE_V|PTE_R|PTE_LIBRARY

  lemma PermIs()
    ensures PERM < 0x1_0000_0000 && FromNumber(PERM) == Word(0, SHARED)
  {
    assert BitsFlag(0x604) == SHARED;
  }

  /** The valid bits of one fd page, as vpd and vpt show them. */
  method FdMapped(m: Kernel.Memory, d: nat, i: nat) returns (b: bool)
    requires m.Valid() && d in m.dirs && i < MAXFD
    ensures b <==> Named(m.S(), AtPte(FdKey(d, i)))
  {
    assert CleanAt(m.S(), AtPde(d, FDX));
    var pde := m.mem[d][FDX];
    if !pde.fl.v { return false; }
    b := m.mem[pde.pfn][i].fl.v;
  }

  method FdAlloc(m: Kernel.Memory, d: nat) returns (r: Option<nat>)
    requires m.Valid() && d in m.dirs
    ensures r == FdFrom(m.S(), d, 0)
  {
    var i := 0;
    while i < MAXFD - 1
      invariant 0 <= i <= MAXFD - 1 && FdFrom(m.S(), d, i) == FdFrom(m.S(), d, 0)
    {
      var b := FdMapped(m, d, i);
      if !b { return Some(i); }
      i := i + 1;
    }
    r := None;
  }

  method UndoFirst(m: Kernel.Memory, d: nat, i: nat)
    requires m.Valid() && d in m.dirs && i < MAXFD
    modifies m
    ensures m.Valid() && m.S() == Err1(old(m.S()), d, i)
  {
    var _ := m.SysMemUnmap(FdKey(d, i), true);
  }

  method UndoBoth(m: Kernel.Memory, d: nat, i: nat, j: nat)
    requires m.Valid() && d in m.dirs && i < MAXFD && j < MAXFD
    modifies m
    ensures m.Valid() && m.S() == Err2(old(m.S()), d, i, j)
  {
    MemUnmapInv(m.S(), FdKey(d, j));
    var _ := m.SysMemUnmap(FdKey(d, j), true);
    UndoFirst(m, d, i);
  }

  method UndoAll(m: Kernel.Memory, d: nat, i: nat, j: nat)
    requires m.Valid() && d in m.dirs && i < MAXFD && j < MAXFD
    modifies m
    ensures m.Valid() && m.S() == Err3(old(m.S()), d, i, j)
  {
    MemUnmapInv(m.S(), DataKey(d, i));
    var _ := m.SysMemUnmap(DataKey(d, i), true);
    UndoBoth(m, d, i, j);
  }

  /** From the second descriptor on. */
  method Finish(m: Kernel.Memory, d: nat, i: nat, j: nat) returns (r: Result)
    requires m.Valid() && d in m.dirs && i < MAXFD && j < MAXFD
    modifies m
    ensures m.Valid() && (m.S(), r) == Rest(old(m.S()), d, i, j)
  {
    hide Inv, MemAlloc, MemMap, MemUnmap, Err1, Err2, Err3, FromNumber, PERM;
    PermIs();
    MemAllocInv(m.S(), FdKey(d, j), SHARED);
    var c := m.SysMemAlloc(FdKey(d, j), true, PERM);
    if !c.Ok? { UndoFirst(m, d, i); return Failed; }
    MemAllocInv(m.S(), DataKey(d, i), SHARED);
    c := m.SysMemAlloc(DataKey(d, i), true, PERM);
    if !c.Ok? { UndoBoth(m, d, i, j); return Failed; }
    MemMapInv(m.S(), DataKey(d, i), DataKey(d, j), SHARED);
    c := m.SysMemMap(DataKey(d, i), true, DataKey(d, j), true, PERM);
    if !c.Ok? { UndoAll(m, d, i, j); return Failed; }
    r := Made(i, j);
  }

  method MakePipe(m: Kernel.Memory, d: nat) returns (r: Result)
    requires m.Valid() && d in m.dirs
    modifies m
    ensures m.Valid() && (m.S(), r) == Pipe(old(m.S()), d)
  {
    var i := FdAlloc(m, d);
    if i == None { return Failed; }
    MemAllocInv(m.S(), FdKey(d, i.value), SHARED);
    hide Inv, MemAlloc, MemMap, MemUnmap, Err1, Rest, FdFrom, FromNumber, PERM;
    PermIs();
    var c := m.SysMemAlloc(FdKey(d, i.value), true, PERM);
    if !c.Ok? { return Failed; }
    var j := FdAlloc(m, d);
    if j == None { UndoFirst(m, d, i.value); return Failed; }
    r := Finish(m, d, i.value, j.value);
  }

  /** A run from page_init on in which pipe() fails and the caller loses a page by it. */
  method LateFailure(ram: seq<seq<Word>>, boot: seq<Word>) returns (m: Kernel.Memory, d: nat, r: Result)
    requires |ram| == NPAGE && (forall p :: 0 <= p < NPAGE ==> |ram[p]| == NWORD) && |boot| == NWORD
    ensures fresh(m) && m.Valid() && r == Failed && DataKey(d, 0) !in Flat(m.S())
  {
    m := new Kernel.Memory.PageInit(NPAGE - 7, ram);
    ghost var s := m.S();
    var dir := m.EnvSetupVm(boot);
    if dir == None { assert false; }
    d := dir.value;
    PipeFail.LossInstance(s, boot, d, m.S());
    hide Inv, MemAlloc, Flat, Pipe, FromNumber, PERM;
    PermIs();
    var c := m.SysMemAlloc(DataKey(d, 0), true, PERM);
    assert DataKey(d, 0) in Flat(m.S());
    r := MakePipe(m, d);
  }
}
