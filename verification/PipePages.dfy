/** The counts of the closed test are the kernel's own: every step of the processes that share a
    pipe, carried out by the kernel, keeps pp_ref of the three pages equal to what PipeClosed
    counts. */
module PipePages {
  import opened Wrappers
  import opened Mmu
  import opened Pmap
  import opened Space
  import opened MemCalls
  import opened PipeMake
  import CowKernel
  import opened P = PipeClosed

  /** Where a pipe lies: its two descriptors, the same in every process, and its three pages. */
  datatype Layout = Layout(i: nat, j: nat, q: Pages3)

  predicate Apart(lay: Layout) {
    && lay.i < lay.j < MAXFD && lay.q.fd0 != lay.q.fd1 && lay.q.fd0 != lay.q.data && lay.q.fd1 != lay.q.data
    && lay.q.fd0 < NPAGE && lay.q.fd1 < NPAGE && lay.q.data < NPAGE
  }

  function Index(lay: Layout, e: End): nat { if e == Reads then lay.i else lay.j }

  /** The virtual page of a slot in the address space `d`. */
  function KeyOf(lay: Layout, d: nat, slot: Slot): Key {
    match slot
    case Fd(e) => FdKey(d, Index(lay, e))
    case Data(e) => DataKey(d, Index(lay, e))
  }

  function PageOf(lay: Layout, slot: Slot): Frame {
    match slot
    case Fd(e) => if e == Reads then lay.q.fd0 else lay.q.fd1
    case Data(_) => lay.q.data
  }

  lemma KeysApart(lay: Layout, d: nat, a: Slot, c: nat, b: Slot)
    requires Apart(lay) && KeyOf(lay, d, a) == KeyOf(lay, c, b)
    ensures d == c && a == b
  {}

  /** The mappings of a slot, by what the processes hold. */
  ghost function Keys(lay: Layout, dirs: seq<nat>, ps: seq<Proc>, slot: Slot): set<Key>
    requires |dirs| == |ps|
  {
    set n | 0 <= n < |ps| && slot in ps[n].held :: KeyOf(lay, dirs[n], slot)
  }

  /** Every live process has an address space of its own, and a dead one holds nothing. */
  ghost predicate Housed(live: set<nat>, dirs: seq<nat>, ps: seq<Proc>) {
    && |dirs| == |ps|
    && (forall n :: 0 <= n < |ps| ==>
          if ps[n].doing == Dead then ps[n].held == {} else dirs[n] in live)
    && (forall m, n :: 0 <= m < n < |ps| && ps[m].doing != Dead && ps[n].doing != Dead ==> dirs[m] != dirs[n])
  }

  /** The page tables hold exactly the mappings of the pipe that the processes hold. */
  ghost predicate Maps(f: map<Key, Word>, lay: Layout, dirs: seq<nat>, ps: seq<Proc>)
    requires |dirs| == |ps|
  {
    && (forall e: End :: Users(f, PageOf(lay, Fd(e))) == Keys(lay, dirs, ps, Fd(e)))
    && Users(f, lay.q.data) == Keys(lay, dirs, ps, Data(Reads)) + Keys(lay, dirs, ps, Data(Writes))
  }

  ghost predicate Pinned(pins: seq<nat>, lay: Layout)
    requires Apart(lay)
  {
    |pins| == NPAGE && pins[lay.q.fd0] == pins[lay.q.fd1] == pins[lay.q.data] == 1
  }

  ghost predicate Backs(s: Pmap.State, lay: Layout, dirs: seq<nat>, ps: seq<Proc>)
    requires Shape(s)
  {
    Apart(lay) && Housed(s.dirs, dirs, ps) && Pinned(s.pins, lay) && Maps(Flat(s), lay, dirs, ps)
  }

  // ---------- counting ----------

  lemma KeysLast(lay: Layout, dirs: seq<nat>, ps: seq<Proc>, slot: Slot)
    requires |dirs| == |ps| && ps != []
    ensures var n := |ps| - 1;
            Keys(lay, dirs, ps, slot)
            == Keys(lay, dirs[..n], ps[..n], slot) + if slot in ps[n].held then {KeyOf(lay, dirs[n], slot)} else {}
  {
    hide KeyOf;
    var n := |ps| - 1;
    forall k | k in Keys(lay, dirs[..n], ps[..n], slot) ensures k in Keys(lay, dirs, ps, slot) {
      var m :| 0 <= m < n && slot in ps[..n][m].held && k == KeyOf(lay, dirs[..n][m], slot);
      assert slot in ps[m].held;
    }
    forall k | k in Keys(lay, dirs, ps, slot)
      ensures k in Keys(lay, dirs[..n], ps[..n], slot) || (slot in ps[n].held && k == KeyOf(lay, dirs[n], slot))
    {
      var m :| 0 <= m < |ps| && slot in ps[m].held && k == KeyOf(lay, dirs[m], slot);
      if m < n { assert slot in ps[..n][m].held; }
    }
  }

  lemma LastIsNew(lay: Layout, dirs: seq<nat>, ps: seq<Proc>, slot: Slot, n: nat)
    requires Apart(lay) && n < |dirs| == |ps| && slot in ps[n].held
    requires forall m :: 0 <= m < n && slot in ps[m].held ==> dirs[m] != dirs[n]
    ensures KeyOf(lay, dirs[n], slot) !in Keys(lay, dirs[..n], ps[..n], slot)
  {}

  /** As many mappings as holders. */
  lemma {:induction false} KeysCount(lay: Layout, dirs: seq<nat>, ps: seq<Proc>, slot: Slot)
    requires Apart(lay) && |dirs| == |ps|
    requires forall m, n :: 0 <= m < n < |ps| && slot in ps[m].held && slot in ps[n].held ==> dirs[m] != dirs[n]
    ensures |Keys(lay, dirs, ps, slot)| == Holders(ps, slot)
  {
    if ps != [] {
      var n := |ps| - 1;
      KeysCount(lay, dirs[..n], ps[..n], slot);
      KeysLast(lay, dirs, ps, slot);
      if slot in ps[n].held { LastIsNew(lay, dirs, ps, slot, n); }
      hide Keys, KeyOf;
    }
  }

  lemma UsersCount(f: map<Key, Word>, live: set<nat>, lay: Layout, dirs: seq<nat>, ps: seq<Proc>, e: End)
    requires Apart(lay) && Housed(live, dirs, ps) && Maps(f, lay, dirs, ps)
    ensures |Users(f, PageOf(lay, Fd(e)))| == Holders(ps, Fd(e))
    ensures |Users(f, lay.q.data)| == Holders(ps, Data(Reads)) + Holders(ps, Data(Writes))
  {
    HeldApart(live, dirs, ps);
    KeysCount(lay, dirs, ps, Fd(e));
    KeysCount(lay, dirs, ps, Data(Reads));
    KeysCount(lay, dirs, ps, Data(Writes));
    assert Keys(lay, dirs, ps, Data(Reads)) !! Keys(lay, dirs, ps, Data(Writes)) by {
      forall n | 0 <= n < |ps| ensures KeyOf(lay, dirs[n], Data(Reads)) !in Keys(lay, dirs, ps, Data(Writes)) {
        NotAmong(lay, dirs, ps, dirs[n], Data(Reads), Data(Writes));
      }
    }
  }

  /** pp_ref, as pageref() reads it, is the count of the closed test, for a page that anybody maps. */
  lemma RefsAreCounts(s: Pmap.State, lay: Layout, dirs: seq<nat>, ps: seq<Proc>, e: End)
    requires Pmap.Inv(s) && Backs(s, lay, dirs, ps)
    ensures Shape(s) && Apart(lay)
    ensures Holders(ps, Fd(e)) > 0 ==> s.ref[PageOf(lay, Fd(e))] == FdRef(ps, e)
    ensures Holders(ps, Data(Reads)) + Holders(ps, Data(Writes)) > 0 ==> s.ref[lay.q.data] == DataRef(ps)
  {
    hide Pmap.Inv, Flat, Holders, Users, Housed, Maps, Shape;
    InvShape(s);
    UsersCount(Flat(s), s.dirs, lay, dirs, ps, e);
    MappedCount(s, PageOf(lay, Fd(e)));
    MappedCount(s, lay.q.data);
  }

  lemma MappedCount(s: Pmap.State, p: nat)
    requires Pmap.Inv(s) && p < NPAGE
    ensures |s.ref| == |s.pins| == NPAGE && (|Users(Flat(s), p)| > 0 ==> s.ref[p] == |Users(Flat(s), p)| + s.pins[p])
  {
    InvShape(s);
    hide Pmap.Inv, Flat;
    if |Users(Flat(s), p)| > 0 {
      var k :| k in Users(Flat(s), p);
      UserCount(s, p, k);
    }
  }

  lemma HeldApart(live: set<nat>, dirs: seq<nat>, ps: seq<Proc>)
    requires Housed(live, dirs, ps)
    ensures forall m, n, slot :: 0 <= m < n < |ps| && slot in ps[m].held && slot in ps[n].held ==> dirs[m] != dirs[n]
  {}

  // ---------- the kernel's part of each step ----------

  datatype Kernel = Kernel(s: Pmap.State, dirs: seq<nat>)

  /** What the kernel does for a step of the current process. Failing calls stop fork, so a step
      of fork is one whose calls succeed. */
  ghost predicate Carries(k: Kernel, lay: Layout, t: P.State, step: Step, r: Kernel)
    requires Pmap.Inv(k.s) && Apart(lay) && |k.dirs| == |t.procs| && Can(t, step) && P.Inv(t)
  {
    var me := t.procs[t.cur];
    var d := k.dirs[t.cur];
    match step
    case CloseFd(e) => r == Kernel(MemUnmap(k.s, KeyOf(lay, d, Fd(e))).0, k.dirs)
    case CloseData => r == Kernel(MemUnmap(k.s, KeyOf(lay, d, Data(me.doing.e))).0, k.dirs)
    case Fork => |r.dirs| == |k.dirs| + 1 && r.dirs[..|k.dirs|] == k.dirs && MakesSpace(k.s, r.dirs[|k.dirs|], r.s)
    case Copy =>
      r.dirs == k.dirs
      && if FORK_ORDER[me.doing.next] in me.held
         then Duppage(k.s, KeyOf(lay, d, FORK_ORDER[me.doing.next]),
                      KeyOf(lay, k.dirs[me.doing.child], FORK_ORDER[me.doing.next]), r.s)
         else r.s == k.s
    case Exit => Freed(k.s, d, r.s) && r.dirs == k.dirs
    case _ => r == k
  }

  /** duppage of a LIBRARY page: mapped in the child, then once more in the parent. */
  ghost predicate Duppage(s: Pmap.State, src: Key, dst: Key, r: Pmap.State)
    requires Pmap.Inv(s) && Va(src) && Va(dst)
  {
    MemMapInv(s, src, dst, SHARED);
    var (b, c) := MemMap(s, src, dst, SHARED);
    c.Ok? && MemMap(b, src, src, SHARED) == (r, Ok)
  }

  // ---------- every step keeps the counts ----------

  lemma UsersDrop(f: map<Key, Word>, k: Key, p: nat)
    ensures Users(f - {k}, p) == Users(f, p) - {k}
  {}

  lemma UsersPut(f: map<Key, Word>, k: Key, w: Word, p: nat)
    ensures Users(f[k := w], p) == if w.pfn == p then Users(f, p) + {k} else Users(f, p) - {k}
  {}

  /** One process holds one slot less, or one more: its key alone goes or comes. */
  lemma KeysDrop(lay: Layout, live: set<nat>, dirs: seq<nat>, ps: seq<Proc>, n: nat, p: Proc, slot: Slot, any: Slot)
    requires Apart(lay) && Housed(live, dirs, ps) && n < |ps| && ps[n].doing != Dead && p.held == ps[n].held - {slot}
    ensures var k := KeyOf(lay, dirs[n], slot);
            Keys(lay, dirs, ps[n := p], any) == Keys(lay, dirs, ps, any) - {k}
            && (any != slot ==> k !in Keys(lay, dirs, ps, any))
  {
    var k := KeyOf(lay, dirs[n], slot);
    forall m | 0 <= m < |ps| && KeyOf(lay, dirs[m], any) == k ensures dirs[m] == dirs[n] && any == slot {
      KeysApart(lay, dirs[m], any, dirs[n], slot);
    }
    hide KeyOf;
    forall m | 0 <= m < |ps| && m != n && any in ps[m].held ensures dirs[m] != dirs[n] {}
  }

  lemma KeysPut(lay: Layout, dirs: seq<nat>, ps: seq<Proc>, n: nat, p: Proc, slot: Slot, any: Slot)
    requires Apart(lay) && |dirs| == |ps| && n < |ps| && p.held == ps[n].held + {slot}
    ensures var k := KeyOf(lay, dirs[n], slot);
            Keys(lay, dirs, ps[n := p], any) == if any == slot then Keys(lay, dirs, ps, any) + {k} else Keys(lay, dirs, ps, any)
  {
    hide KeyOf;
    var a, b := Keys(lay, dirs, ps[n := p], any), Keys(lay, dirs, ps, any);
    forall x | x in b ensures x in a {
      var m :| 0 <= m < |ps| && any in ps[m].held && x == KeyOf(lay, dirs[m], any);
      assert any in ps[n := p][m].held;
    }
    if any == slot { assert slot in ps[n := p][n].held; }
  }

  lemma NotAmong(lay: Layout, dirs: seq<nat>, ps: seq<Proc>, d: nat, slot: Slot, any: Slot)
    requires Apart(lay) && |dirs| == |ps| && any != slot
    ensures KeyOf(lay, d, slot) !in Keys(lay, dirs, ps, any)
  {
    forall m | 0 <= m < |ps| ensures KeyOf(lay, dirs[m], any) != KeyOf(lay, d, slot) {
      if KeyOf(lay, dirs[m], any) == KeyOf(lay, d, slot) { KeysApart(lay, dirs[m], any, d, slot); }
    }
  }

  lemma MapsDrop(f: map<Key, Word>, lay: Layout, live: set<nat>, dirs: seq<nat>, ps: seq<Proc>, n: nat, p: Proc, slot: Slot)
    requires Apart(lay) && Housed(live, dirs, ps) && Maps(f, lay, dirs, ps) && n < |ps| && ps[n].doing != Dead
    requires p.held == ps[n].held - {slot}
    ensures Maps(f - {KeyOf(lay, dirs[n], slot)}, lay, dirs, ps[n := p])
  {
    var k := KeyOf(lay, dirs[n], slot);
    var g := f - {k};
    hide Users, Keys, KeyOf, Housed;
    forall e: End ensures Users(g, PageOf(lay, Fd(e))) == Keys(lay, dirs, ps[n := p], Fd(e)) {
      UsersDrop(f, k, PageOf(lay, Fd(e)));
      KeysDrop(lay, live, dirs, ps, n, p, slot, Fd(e));
    }
    UsersDrop(f, k, lay.q.data);
    KeysDrop(lay, live, dirs, ps, n, p, slot, Data(Reads));
    KeysDrop(lay, live, dirs, ps, n, p, slot, Data(Writes));
  }

  lemma HousedSet(live: set<nat>, dirs: seq<nat>, ps: seq<Proc>, n: nat, p: Proc)
    requires Housed(live, dirs, ps) && n < |ps| && ps[n].doing != Dead && p.doing != Dead
    ensures Housed(live, dirs, ps[n := p])
  {}

  lemma MapsPut(f: map<Key, Word>, lay: Layout, dirs: seq<nat>, ps: seq<Proc>, n: nat, p: Proc, slot: Slot, w: Word)
    requires Apart(lay) && |dirs| == |ps| && Maps(f, lay, dirs, ps) && n < |ps|
    requires p.held == ps[n].held + {slot} && w.pfn == PageOf(lay, slot)
    ensures Maps(f[KeyOf(lay, dirs[n], slot) := w], lay, dirs, ps[n := p])
  {
    var k := KeyOf(lay, dirs[n], slot);
    var g := f[k := w];
    hide Users, Keys, KeyOf;
    forall e: End ensures Users(g, PageOf(lay, Fd(e))) == Keys(lay, dirs, ps[n := p], Fd(e)) {
      UsersPut(f, k, w, PageOf(lay, Fd(e)));
      KeysPut(lay, dirs, ps, n, p, slot, Fd(e));
      if slot != Fd(e) { NotAmong(lay, dirs, ps, dirs[n], slot, Fd(e)); }
    }
    UsersPut(f, k, w, lay.q.data);
    KeysPut(lay, dirs, ps, n, p, slot, Data(Reads));
    KeysPut(lay, dirs, ps, n, p, slot, Data(Writes));
    if slot.Fd? {
      NotAmong(lay, dirs, ps, dirs[n], slot, Data(Reads));
      NotAmong(lay, dirs, ps, dirs[n], slot, Data(Writes));
    }
  }

  /** Nothing about the mappings changes. */
  lemma MapsQuiet(f: map<Key, Word>, lay: Layout, live: set<nat>, dirs: seq<nat>, ps: seq<Proc>, qs: seq<Proc>)
    requires Housed(live, dirs, ps) && Maps(f, lay, dirs, ps) && |qs| == |ps|
    requires forall n :: 0 <= n < |ps| ==> qs[n].held == ps[n].held && (qs[n].doing == Dead <==> ps[n].doing == Dead)
    ensures Housed(live, dirs, qs) && Maps(f, lay, dirs, qs)
  {
    forall slot ensures Keys(lay, dirs, qs, slot) == Keys(lay, dirs, ps, slot) {}
    hide Users, Keys, KeyOf;
  }

  /** A process more, in a new address space, that holds nothing yet. */
  lemma MapsFork(f: map<Key, Word>, lay: Layout, live: set<nat>, dirs: seq<nat>, c: nat, ps: seq<Proc>, p: Proc)
    requires Housed(live, dirs, ps) && Maps(f, lay, dirs, ps) && p.held == {} && p.doing != Dead && c !in live
    ensures Housed(live + {c}, dirs + [c], ps + [p]) && Maps(f, lay, dirs + [c], ps + [p])
  {
    forall slot ensures Keys(lay, dirs + [c], ps + [p], slot) == Keys(lay, dirs, ps, slot) { KeysFork(lay, dirs, c, ps, p, slot); }
    hide Users, Keys, KeyOf;
  }

  lemma KeysFork(lay: Layout, dirs: seq<nat>, c: nat, ps: seq<Proc>, p: Proc, slot: Slot)
    requires |dirs| == |ps| && p.held == {}
    ensures Keys(lay, dirs + [c], ps + [p], slot) == Keys(lay, dirs, ps, slot)
  {
    hide KeyOf;
    forall k | k in Keys(lay, dirs, ps, slot) ensures k in Keys(lay, dirs + [c], ps + [p], slot) {
      var m :| 0 <= m < |ps| && slot in ps[m].held && k == KeyOf(lay, dirs[m], slot);
      assert slot in (ps + [p])[m].held;
    }
  }

  /** A process gone, with everything in its address space. */
  lemma MapsExit(f: map<Key, Word>, lay: Layout, live: set<nat>, dirs: seq<nat>, ps: seq<Proc>, n: nat, p: Proc)
    requires Apart(lay) && Housed(live, dirs, ps) && Maps(f, lay, dirs, ps)
    requires n < |ps| && ps[n].doing != Dead && p.doing == Dead && p.held == {}
    ensures Housed(live - {dirs[n]}, dirs, ps[n := p])
    ensures Maps(map k | k in f && k.d != dirs[n] :: f[k], lay, dirs, ps[n := p])
  {
    var g := map k | k in f && k.d != dirs[n] :: f[k];
    forall slot ensures Keys(lay, dirs, ps[n := p], slot) == set k | k in Keys(lay, dirs, ps, slot) && k.d != dirs[n] {
      KeysExit(lay, live, dirs, ps, n, p, slot);
    }
    forall q: nat ensures Users(g, q) == set k | k in Users(f, q) && k.d != dirs[n] {}
    hide Users, Keys, KeyOf;
  }

  lemma KeysExit(lay: Layout, live: set<nat>, dirs: seq<nat>, ps: seq<Proc>, n: nat, p: Proc, slot: Slot)
    requires Apart(lay) && Housed(live, dirs, ps) && n < |ps| && ps[n].doing != Dead && p.held == {}
    ensures Keys(lay, dirs, ps[n := p], slot) == set k | k in Keys(lay, dirs, ps, slot) && k.d != dirs[n]
  {
    forall m | 0 <= m < |ps| && m != n && slot in ps[m].held ensures dirs[m] != dirs[n] && slot in ps[n := p][m].held {}
  }

  // ---------- on the kernel's states ----------

  lemma KeyOfVa(lay: Layout, d: nat, slot: Slot)
    requires Apart(lay)
    ensures var k := KeyOf(lay, d, slot); Va(k) && k.x < UTOPX && k.d == d
  {}

  lemma CloseBacks(s: Pmap.State, lay: Layout, dirs: seq<nat>, ps: seq<Proc>, n: nat, p: Proc, slot: Slot)
    requires Pmap.Inv(s) && Shape(s) && Backs(s, lay, dirs, ps) && n < |ps| && ps[n].doing != Dead && p.doing != Dead
    requires p.held == ps[n].held - {slot} && Va(KeyOf(lay, dirs[n], slot))
    ensures var r := MemUnmap(s, KeyOf(lay, dirs[n], slot)).0;
            Pmap.Inv(r) && Shape(r) && Backs(r, lay, dirs, ps[n := p])
  {
    hide Pmap.Inv, Flat, Maps, Keys, KeyOf, Pinned, MemUnmap, Entries, Shape, KeepsData;
    var k := KeyOf(lay, dirs[n], slot);
    KeyOfVa(lay, dirs[n], slot);
    MemUnmapInv(s, k);
    InvShape(MemUnmap(s, k).0);
    MapsDrop(Flat(s), lay, s.dirs, dirs, ps, n, p, slot);
    HousedSet(s.dirs, dirs, ps, n, p);
  }

  /** The page behind a held slot is the pipe's. */
  lemma SourcePage(f: map<Key, Word>, lay: Layout, dirs: seq<nat>, ps: seq<Proc>, n: nat, slot: Slot)
    requires |dirs| == |ps| && Maps(f, lay, dirs, ps) && n < |ps| && slot in ps[n].held
    ensures var k := KeyOf(lay, dirs[n], slot); k in f && f[k].pfn == PageOf(lay, slot)
  {
    var k := KeyOf(lay, dirs[n], slot);
    assert k in Keys(lay, dirs, ps, slot);
    hide Keys, KeyOf;
    if slot.Fd? { assert k in Users(f, PageOf(lay, Fd(slot.e))); } else { assert k in Users(f, lay.q.data); }
  }

  lemma MapBacks(s: Pmap.State, lay: Layout, dirs: seq<nat>, ps: seq<Proc>, n: nat, c: nat, slot: Slot)
    requires Pmap.Inv(s) && Shape(s) && Backs(s, lay, dirs, ps) && n < |ps| && c < |ps| && slot in ps[n].held && ps[c].doing != Dead
    requires Va(KeyOf(lay, dirs[n], slot)) && Va(KeyOf(lay, dirs[c], slot))
    requires MemMap(s, KeyOf(lay, dirs[n], slot), KeyOf(lay, dirs[c], slot), SHARED).1 == Ok
    ensures var r := MemMap(s, KeyOf(lay, dirs[n], slot), KeyOf(lay, dirs[c], slot), SHARED).0;
            Pmap.Inv(r) && Shape(r) && Backs(r, lay, dirs, ps[c := ps[c].(held := ps[c].held + {slot})])
  {
    hide Pmap.Inv, Flat, Maps, Keys, KeyOf, Pinned, MemMap, Entries, Shape, KeepsData;
    var src, dst := KeyOf(lay, dirs[n], slot), KeyOf(lay, dirs[c], slot);
    var p := ps[c].(held := ps[c].held + {slot});
    MemMapInv(s, src, dst, SHARED);
    InvShape(MemMap(s, src, dst, SHARED).0);
    SourcePage(Flat(s), lay, dirs, ps, n, slot);
    MapsPut(Flat(s), lay, dirs, ps, c, p, slot, Word(Flat(s)[src].pfn, SHARED));
    HousedSet(s.dirs, dirs, ps, c, p);
  }

  lemma DupBacks(s: Pmap.State, lay: Layout, dirs: seq<nat>, ps: seq<Proc>, n: nat, c: nat, slot: Slot, r: Pmap.State)
    requires Pmap.Inv(s) && Shape(s) && Backs(s, lay, dirs, ps) && |dirs| == |ps| && n < |ps| && c < |ps| && n != c
    requires slot in ps[n].held && ps[n].doing != Dead && ps[c].doing != Dead
    requires Va(KeyOf(lay, dirs[n], slot)) && Va(KeyOf(lay, dirs[c], slot))
    requires Duppage(s, KeyOf(lay, dirs[n], slot), KeyOf(lay, dirs[c], slot), r)
    ensures Pmap.Inv(r) && Shape(r) && Backs(r, lay, dirs, ps[c := ps[c].(held := ps[c].held + {slot})])
  {
    hide Pmap.Inv, Backs, KeyOf, MemMap, Shape;
    var src, dst := KeyOf(lay, dirs[n], slot), KeyOf(lay, dirs[c], slot);
    MapBacks(s, lay, dirs, ps, n, c, slot);
    var b := MemMap(s, src, dst, SHARED).0;
    var qs := ps[c := ps[c].(held := ps[c].held + {slot})];
    MapBacks(b, lay, dirs, qs, n, n, slot);
    assert qs[n].(held := qs[n].held + {slot}) == qs[n];
    assert qs[n := qs[n]] == qs;
  }

  lemma ForkBacks(s: Pmap.State, lay: Layout, dirs: seq<nat>, ps: seq<Proc>, c: nat, r: Pmap.State, p: Proc)
    requires Pmap.Inv(s) && Shape(s) && Backs(s, lay, dirs, ps) && MakesSpace(s, c, r) && p.held == {} && p.doing != Dead
    ensures Pmap.Inv(r) && Shape(r) && Backs(r, lay, dirs + [c], ps + [p])
  {
    SpaceFlat(s, c, r);
    InvShape(r);
    hide Pmap.Inv, Flat, Maps, Keys, Pinned, MakesSpace, Shape;
    MapsFork(Flat(s), lay, s.dirs, dirs, c, ps, p);
  }

  lemma ExitBacks(s: Pmap.State, lay: Layout, dirs: seq<nat>, ps: seq<Proc>, n: nat, r: Pmap.State, p: Proc)
    requires Pmap.Inv(s) && Shape(s) && Backs(s, lay, dirs, ps) && n < |ps| && Freed(s, dirs[n], r)
    requires ps[n].doing != Dead && p.doing == Dead && p.held == {}
    ensures Pmap.Inv(r) && Shape(r) && Backs(r, lay, dirs, ps[n := p])
  {
    hide Pmap.Inv, Maps, Keys, Pinned, Shape, Entries, Without, Untouched, Flat;
    FreedFlat(s, dirs[n], r);
    MapsExit(Flat(s), lay, s.dirs, dirs, ps, n, p);
  }

  // ---------- what else the kernel does ----------

  predicate IsPipe(lay: Layout, q: nat) { q == lay.q.fd0 || q == lay.q.fd1 || q == lay.q.data }

  function Living(dirs: seq<nat>, ps: seq<Proc>): set<nat>
    requires |dirs| == |ps|
  {
    set n | 0 <= n < |ps| && ps[n].doing != Dead :: dirs[n]
  }

  ghost predicate SameUsers(f: map<Key, Word>, g: map<Key, Word>, lay: Layout) {
    forall q: nat :: IsPipe(lay, q) ==> Users(g, q) == Users(f, q)
  }

  /** Nothing that concerns the pipe: the processes keep their address spaces, and the same virtual pages
      map its three pages. */
  ghost predicate Beside(s: Pmap.State, lay: Layout, live: set<nat>, r: Pmap.State)
    requires Shape(s) && Apart(lay)
  {
    Pmap.Inv(r) && live <= r.dirs && Pinned(r.pins, lay) && SameUsers(Flat(s), Flat(r), lay)
  }

  lemma BesideBacks(s: Pmap.State, lay: Layout, dirs: seq<nat>, ps: seq<Proc>, r: Pmap.State)
    requires Pmap.Inv(s) && Shape(s) && Backs(s, lay, dirs, ps) && Beside(s, lay, Living(dirs, ps), r)
    ensures Pmap.Inv(r) && Shape(r) && Backs(r, lay, dirs, ps)
  {
    InvShape(r);
    assert IsPipe(lay, lay.q.fd0) && IsPipe(lay, lay.q.fd1) && IsPipe(lay, lay.q.data);
    forall n | 0 <= n < |ps| && ps[n].doing != Dead ensures dirs[n] in r.dirs { assert dirs[n] in Living(dirs, ps); }
    hide Pmap.Inv, Flat, Users, Keys, Living, Shape, Pinned;
  }

  lemma LivingLive(live: set<nat>, dirs: seq<nat>, ps: seq<Proc>)
    requires Housed(live, dirs, ps)
    ensures Living(dirs, ps) <= live
  {}

  /** Two flat maps that differ at most at `k`, which maps a page of the pipe in neither. */
  lemma ElsewhereUsers(f: map<Key, Word>, g: map<Key, Word>, lay: Layout, k: Key)
    requires g - {k} == f - {k}
    requires k in f ==> !IsPipe(lay, f[k].pfn)
    requires k in g ==> !IsPipe(lay, g[k].pfn)
    ensures SameUsers(f, g, lay)
  {
    forall q: nat | IsPipe(lay, q) ensures Users(g, q) == Users(f, q) {
      UsersDrop(g, k, q);
      UsersDrop(f, k, q);
      assert Users(g, q) - {k} == Users(g, q) && Users(f, q) - {k} == Users(f, q);
    }
  }

  /** A page just taken from the free list is not the pipe's, and pinning it pins none of those. */
  lemma FreeIsOther(s: Pmap.State, lay: Layout)
    requires Pmap.Inv(s) && Shape(s) && Apart(lay) && Pinned(s.pins, lay) && s.free != []
    ensures s.free[0] < NPAGE && !IsPipe(lay, s.free[0])
    ensures Pinned(s.pins[s.free[0] := s.pins[s.free[0]] + 1], lay)
  {
    FreePage(s);
    hide Pmap.Inv;
  }

  /** sys_mem_alloc at a page that is not the pipe's. */
  lemma AllocBeside(s: Pmap.State, lay: Layout, dirs: seq<nat>, ps: seq<Proc>, k: Key, fl: Flags)
    requires Pmap.Inv(s) && Shape(s) && Backs(s, lay, dirs, ps) && Va(k)
    requires k in Flat(s) ==> !IsPipe(lay, Flat(s)[k].pfn)
    ensures Beside(s, lay, Living(dirs, ps), MemAlloc(s, k, fl).0)
  {
    hide Pmap.Inv, Flat, Maps, Shape, MemAlloc, Entries, KeepsData, Housed, Living, IsPipe, Pinned, SameUsers, Apart;
    var (r, c) := MemAlloc(s, k, fl);
    MemAllocInv(s, k, fl);
    InvShape(r);
    LivingLive(s.dirs, dirs, ps);
    if s.free != [] { FreeIsOther(s, lay); }
    if !c.Ok? { SameFlat(s, r); }
    ElsewhereUsers(Flat(s), Flat(r), lay, k);
  }

  /** sys_mem_map of a page that is not the pipe's, over one that is not. */
  lemma MapBeside(s: Pmap.State, lay: Layout, dirs: seq<nat>, ps: seq<Proc>, src: Key, dst: Key, fl: Flags)
    requires Pmap.Inv(s) && Shape(s) && Backs(s, lay, dirs, ps) && Va(src) && Va(dst)
    requires src in Flat(s) ==> !IsPipe(lay, Flat(s)[src].pfn)
    requires dst in Flat(s) ==> !IsPipe(lay, Flat(s)[dst].pfn)
    ensures Beside(s, lay, Living(dirs, ps), MemMap(s, src, dst, fl).0)
  {
    hide Pmap.Inv, Flat, Maps, Shape, MemMap, Entries, KeepsData, Housed, Living, IsPipe, Pinned, SameUsers, Apart;
    var (r, c) := MemMap(s, src, dst, fl);
    MemMapInv(s, src, dst, fl);
    InvShape(r);
    LivingLive(s.dirs, dirs, ps);
    ElsewhereUsers(Flat(s), Flat(r), lay, dst);
  }

  /** sys_mem_unmap of a page that is not the pipe's. */
  lemma UnmapBeside(s: Pmap.State, lay: Layout, dirs: seq<nat>, ps: seq<Proc>, k: Key)
    requires Pmap.Inv(s) && Shape(s) && Backs(s, lay, dirs, ps) && Va(k)
    requires k in Flat(s) ==> !IsPipe(lay, Flat(s)[k].pfn)
    ensures Beside(s, lay, Living(dirs, ps), MemUnmap(s, k).0)
  {
    hide Pmap.Inv, Flat, Maps, Shape, MemUnmap, Entries, KeepsData, Housed, Living, IsPipe, Pinned, SameUsers, Apart;
    var (r, c) := MemUnmap(s, k);
    MemUnmapInv(s, k);
    InvShape(r);
    LivingLive(s.dirs, dirs, ps);
    ElsewhereUsers(Flat(s), Flat(r), lay, k);
  }

  /** A store to any user page, those of the pipe included. */
  lemma StoreBeside(s: Pmap.State, lay: Layout, dirs: seq<nat>, ps: seq<Proc>, k: Key, off: nat, w: Word)
    requires Pmap.Inv(s) && Shape(s) && Backs(s, lay, dirs, ps) && k in Flat(s) && off < NWORD
    ensures Flat(s)[k].pfn < NPAGE && Beside(s, lay, Living(dirs, ps), Write(s, Flat(s)[k].pfn, off, w))
  {
    hide Pmap.Inv, Flat, Maps, Shape, Housed, Living, IsPipe, Pinned, Apart, Users;
    CowKernel.StoreInv(s, k, off, w);
    LivingLive(s.dirs, dirs, ps);
  }

  /** A new address space. */
  lemma SpaceBeside(s: Pmap.State, lay: Layout, dirs: seq<nat>, ps: seq<Proc>, c: nat, r: Pmap.State)
    requires Pmap.Inv(s) && Shape(s) && Backs(s, lay, dirs, ps) && MakesSpace(s, c, r)
    ensures Beside(s, lay, Living(dirs, ps), r)
  {
    hide Pmap.Inv, Flat, Maps, Shape, Housed, Living, IsPipe, Pinned, Apart, Users, MakesSpace, KeepsData;
    SpaceFlat(s, c, r);
    LivingLive(s.dirs, dirs, ps);
  }

  lemma FreedFlat(s: Pmap.State, d: nat, r: Pmap.State)
    requires Freed(s, d, r)
    ensures Shape(s) && Shape(r) && Flat(r) == map k | k in Flat(s) && k.d != d :: Flat(s)[k]
  {
    InvShape(r);
    CowKernel.PagesWithout(Entries(s), d);
    hide Pmap.Inv, Without, Entries, Pages, Untouched, Shape;
  }

  /** env_free of an address space that is none of the processes'. */
  lemma FreeBeside(s: Pmap.State, lay: Layout, dirs: seq<nat>, ps: seq<Proc>, d: nat, r: Pmap.State)
    requires Pmap.Inv(s) && Shape(s) && Backs(s, lay, dirs, ps) && Freed(s, d, r) && d !in Living(dirs, ps)
    ensures Beside(s, lay, Living(dirs, ps), r)
  {
    hide Pmap.Inv, Flat, Maps, Shape, Housed, Living, IsPipe, Pinned, Apart, Entries, Without, Untouched, Users;
    FreedFlat(s, d, r);
    LivingLive(s.dirs, dirs, ps);
    forall k, q: nat | IsPipe(lay, q) && k in Users(Flat(s), q) ensures k.d != d { PipeKeys(s, lay, dirs, ps, k, q); }
    FilteredUsers(Flat(s), Flat(r), lay, d);
  }

  lemma FilteredUsers(f: map<Key, Word>, g: map<Key, Word>, lay: Layout, d: nat)
    requires g == map k | k in f && k.d != d :: f[k]
    requires forall k, q: nat :: IsPipe(lay, q) && k in Users(f, q) ==> k.d != d
    ensures SameUsers(f, g, lay)
  {
    hide IsPipe;
  }

  lemma PipeKeys(s: Pmap.State, lay: Layout, dirs: seq<nat>, ps: seq<Proc>, k: Key, q: nat)
    requires Shape(s) && Backs(s, lay, dirs, ps) && IsPipe(lay, q) && k in Users(Flat(s), q)
    ensures k.d in Living(dirs, ps)
  {
    assert PageOf(lay, Fd(Reads)) == lay.q.fd0 && PageOf(lay, Fd(Writes)) == lay.q.fd1;
    assert exists slot :: k in Keys(lay, dirs, ps, slot);
    var slot :| k in Keys(lay, dirs, ps, slot);
    var n :| 0 <= n < |ps| && slot in ps[n].held && k == KeyOf(lay, dirs[n], slot);
    assert ps[n].doing != Dead;
    hide Users, Flat;
  }

  // ---------- over whole runs ----------

  lemma QuietBacks(s: Pmap.State, lay: Layout, dirs: seq<nat>, ps: seq<Proc>, qs: seq<Proc>)
    requires Pmap.Inv(s) && Shape(s) && Backs(s, lay, dirs, ps) && |qs| == |ps|
    requires forall n :: 0 <= n < |ps| ==> qs[n].held == ps[n].held && (qs[n].doing == Dead <==> ps[n].doing == Dead)
    ensures Backs(s, lay, dirs, qs)
  {
    hide Pmap.Inv, Flat, Maps, Keys, Pinned, Shape;
    MapsQuiet(Flat(s), lay, s.dirs, dirs, ps, qs);
  }

  /** Each step, carried out by the kernel, leaves the page tables holding what the processes hold. */
  lemma StepBacks(k: Kernel, lay: Layout, t: P.State, step: Step, r: Kernel)
    requires Pmap.Inv(k.s) && Shape(k.s) && Apart(lay) && |k.dirs| == |t.procs| && Backs(k.s, lay, k.dirs, t.procs)
    requires P.Inv(t) && Can(t, step)
    requires Carries(k, lay, t, step, r)
    ensures Pmap.Inv(r.s) && Shape(r.s) && Backs(r.s, lay, r.dirs, Next(t, step).procs)
  {
    hide Pmap.Inv, Shape, Backs, Duppage, MakesSpace, Freed, KeyOf, MemUnmap, Whole, Fresh, OneForker;
    var me := t.procs[t.cur];
    var n := Next(t, step).procs;
    match step
    case CloseFd(e) =>
      KeyOfVa(lay, k.dirs[t.cur], Fd(e));
      CloseBacks(k.s, lay, k.dirs, t.procs, t.cur, n[t.cur], Fd(e));
    case CloseData =>
      KeyOfVa(lay, k.dirs[t.cur], Data(me.doing.e));
      CloseBacks(k.s, lay, k.dirs, t.procs, t.cur, n[t.cur], Data(me.doing.e));
    case Fork =>
      ForkBacks(k.s, lay, k.dirs, t.procs, r.dirs[|k.dirs|], r.s, Proc({}, Embryo, 0));
      assert r.dirs == k.dirs + [r.dirs[|k.dirs|]];
      QuietBacks(r.s, lay, r.dirs, t.procs + [Proc({}, Embryo, 0)], n);
    case Copy =>
      var c, slot := me.doing.child, FORK_ORDER[me.doing.next];
      assert Copied(t, t.cur);
      if slot in me.held {
        KeyOfVa(lay, k.dirs[t.cur], slot);
        KeyOfVa(lay, k.dirs[c], slot);
        DupBacks(k.s, lay, k.dirs, t.procs, t.cur, c, slot, r.s);
        QuietBacks(r.s, lay, k.dirs, t.procs[c := t.procs[c].(held := t.procs[c].held + {slot})], n);
      } else {
        QuietBacks(k.s, lay, k.dirs, t.procs, n);
      }
    case Exit => ExitBacks(k.s, lay, k.dirs, t.procs, t.cur, r.s, n[t.cur]);
    case EndFork =>
      assert Copied(t, t.cur);
      QuietBacks(k.s, lay, k.dirs, t.procs, n);
    case _ => QuietBacks(k.s, lay, k.dirs, t.procs, n);
  }

  /** A step of the processes, or something else that the kernel does. */
  datatype Act = Do(step: Step) | Aside

  function StepsOf(acts: seq<Act>): seq<Step> {
    if acts == [] then [] else (if acts[0].Do? then [acts[0].step] else []) + StepsOf(acts[1..])
  }

  function After(t: P.State, act: Act): P.State
    requires act.Do? ==> Can(t, act.step)
  {
    if act.Do? then Next(t, act.step) else t
  }

  ghost predicate Serves(k: Kernel, lay: Layout, t: P.State, act: Act, r: Kernel)
    requires Pmap.Inv(k.s) && Apart(lay) && |k.dirs| == |t.procs| && P.Inv(t)
  {
    match act
    case Do(step) => Can(t, step) && Carries(k, lay, t, step, r)
    case Aside => r.dirs == k.dirs && Beside(k.s, lay, Living(k.dirs, t.procs), r.s)
  }

  /** `trace` are the kernel's states along a run. */
  ghost predicate Served(trace: seq<Kernel>, lay: Layout, t: P.State, acts: seq<Act>)
    requires Apart(lay)
    decreases |acts|
  {
    && |trace| == |acts| + 1 && Pmap.Inv(trace[0].s) && |trace[0].dirs| == |t.procs| && P.Inv(t)
    && (acts != [] ==>
          && Serves(trace[0], lay, t, acts[0], trace[1])
          && Served(trace[1..], lay, After(t, acts[0]), acts[1..]))
  }

  lemma ActBacks(k: Kernel, lay: Layout, t: P.State, act: Act, r: Kernel)
    requires Pmap.Inv(k.s) && Shape(k.s) && Apart(lay) && |k.dirs| == |t.procs| && Backs(k.s, lay, k.dirs, t.procs) && P.Inv(t)
    requires Serves(k, lay, t, act, r)
    ensures Pmap.Inv(r.s) && Shape(r.s) && Backs(r.s, lay, r.dirs, After(t, act).procs) && (act.Do? ==> Can(t, act.step))
  {
    hide Pmap.Inv, Shape, Backs, Beside, Next, Can, P.Inv, Carries, Living;
    match act
    case Do(step) => StepBacks(k, lay, t, step, r);
    case Aside => BesideBacks(k.s, lay, k.dirs, t.procs, r.s);
  }

  /** Every run of the processes, with whatever else the kernel does in between, leaves the page tables
      holding what the processes hold. */
  lemma {:induction false} RunBacks(trace: seq<Kernel>, lay: Layout, t: P.State, acts: seq<Act>)
    requires Apart(lay) && Served(trace, lay, t, acts) && Shape(trace[0].s) && Backs(trace[0].s, lay, trace[0].dirs, t.procs)
    ensures Reaches(t, StepsOf(acts)) && P.Inv(Run(t, StepsOf(acts)))
    ensures var k := trace[|acts|]; Pmap.Inv(k.s) && Shape(k.s) && Backs(k.s, lay, k.dirs, Run(t, StepsOf(acts)).procs)
    decreases |acts|
  {
    hide Pmap.Inv, Shape, Backs, Next, Can, P.Inv, Serves;
    if acts != [] {
      ActBacks(trace[0], lay, t, acts[0], trace[1]);
      RunBacks(trace[1..], lay, After(t, acts[0]), acts[1..]);
      assert trace[1..][|acts[1..]|] == trace[|acts|];
      if acts[0].Do? {
        RunCons(t, acts[0].step, Next(t, acts[0].step), StepsOf(acts[1..]));
      } else {
        assert StepsOf(acts) == StepsOf(acts[1..]);
      }
    }
  }

  lemma AskerHolds(t: P.State, e: End)
    requires P.Inv(t) && t.procs[t.cur].doing.Asking? && t.procs[t.cur].doing.e == e
    ensures Holders(t.procs, Fd(e)) > 0 && Holders(t.procs, Data(e)) > 0
  {
    assert Whole(t.procs[t.cur]);
    HoldersZero(t.procs, Fd(e));
    HoldersZero(t.procs, Data(e));
  }

  /** In every such run, what _pipeisclosed reads with pageref() are the counts its verdict is proved
      for: pp_ref of the fd page and of the data page are what PipeClosed counts. */
  lemma AskReadsCounts(trace: seq<Kernel>, lay: Layout, t: P.State, acts: seq<Act>, e: End)
    requires Apart(lay) && Served(trace, lay, t, acts) && Shape(trace[0].s) && Backs(trace[0].s, lay, trace[0].dirs, t.procs)
    requires Reaches(t, StepsOf(acts)) && Run(t, StepsOf(acts)).cur < |Run(t, StepsOf(acts)).procs|
    requires var me := Run(t, StepsOf(acts)).procs[Run(t, StepsOf(acts)).cur]; me.doing.Asking? && me.doing.e == e
    ensures var s, ps := trace[|acts|].s, Run(t, StepsOf(acts)).procs;
            && |s.ref| == NPAGE && s.ref[PageOf(lay, Fd(e))] == FdRef(ps, e) && s.ref[lay.q.data] == DataRef(ps)
  {
    RunBacks(trace, lay, t, acts);
    AskerHolds(Run(t, StepsOf(acts)), e);
    var k := trace[|acts|];
    hide Pmap.Inv, Shape, Backs, Reaches, Run, Served, P.Inv, Holders, Apart;
    InvShape(k.s);
    RefsAreCounts(k.s, lay, k.dirs, Run(t, StepsOf(acts)).procs, e);
  }

  lemma StartMaps(f: map<Key, Word>, lay: Layout, live: set<nat>, d: nat, others: seq<nat>)
    requires Apart(lay) && d in live
    requires forall m :: 0 <= m < |others| ==> others[m] in live && others[m] != d
    requires forall m, n :: 0 <= m < n < |others| ==> others[m] != others[n]
    requires Users(f, lay.q.fd0) == {FdKey(d, lay.i)} && Users(f, lay.q.fd1) == {FdKey(d, lay.j)}
    requires Users(f, lay.q.data) == {DataKey(d, lay.i), DataKey(d, lay.j)}
    ensures Housed(live, [d] + others, Start(|others|).procs) && Maps(f, lay, [d] + others, Start(|others|).procs)
  {
    var dirs, ps := [d] + others, Start(|others|).procs;
    forall slot ensures Keys(lay, dirs, ps, slot) == {KeyOf(lay, d, slot)} {
      assert slot.e == Reads || slot.e == Writes;
      assert slot in ps[0].held;
      assert dirs[0] == d;
    }
    hide Keys, Users;
  }

  lemma StartInv(n: nat)
    ensures P.Inv(Start(n))
  {}

  lemma Backed(s: Pmap.State, lay: Layout, dirs: seq<nat>, ps: seq<Proc>)
    requires Shape(s) && Apart(lay) && Housed(s.dirs, dirs, ps) && Maps(Flat(s), lay, dirs, ps)
    requires s.pins[lay.q.fd0] == s.pins[lay.q.fd1] == s.pins[lay.q.data] == 1
    ensures Backs(s, lay, dirs, ps)
  {
    hide Flat, Housed, Maps;
  }

  /** A successful pipe() is where such runs start. */
  lemma PipeBacks(s: Pmap.State, d: nat, others: seq<nat>) returns (lay: Layout)
    requires Pmap.Inv(s) && d in s.dirs && Pipe(s, d).1.Made?
    requires forall m :: 0 <= m < |others| ==> others[m] in s.dirs && others[m] != d
    requires forall m, n :: 0 <= m < n < |others| ==> others[m] != others[n]
    ensures var f := Pipe(s, d).0;
            Pmap.Inv(f) && Shape(f) && Apart(lay) && lay.i == Pipe(s, d).1.i && lay.j == Pipe(s, d).1.j
            && Backs(f, lay, [d] + others, Start(|others|).procs) && P.Inv(Start(|others|))
  {
    var a, i, j := PipeSteps(s, d);
    hide *;
    var q := RestMakes(s, a, d, i, j, s.free[0]);
    var f := Rest(a, d, i, j).0;
    lay := MakeLayout(i, j, q);
    PipeUsers(Flat(s), Flat(f), d, i, j, q);
    InvShape(f);
    StartInv(|others|);
    StartMaps(Flat(f), lay, f.dirs, d, others);
    Backed(f, lay, [d] + others, Start(|others|).procs);
  }

  lemma MakeLayout(i: nat, j: nat, q: Pages3) returns (lay: Layout)
    requires i < j < MAXFD && q.fd0 < NPAGE && q.fd1 < NPAGE && q.data < NPAGE
    requires q.fd0 != q.fd1 && q.fd0 != q.data && q.fd1 != q.data
    ensures lay == Layout(i, j, q) && Apart(lay)
  {
    lay := Layout(i, j, q);
  }
}
