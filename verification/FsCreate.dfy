/** Creating files: dir_alloc_file and file_create (fs/fs.c), what they add to a tree, when they fail
    and what they leave then. */
module FsCreate {
  import opened Wrappers
  import opened FsTree
  import opened FsPath

  function Rename(t: Tree, q: Ref, name: string): Tree
    requires Valid(t, q)
  {
    Set(t, q, Get(t, q).(name := name))
  }

  function Grow(t: Tree, r: Ref): Tree
    requires Valid(t, r)
  {
    Set(t, r, Get(t, r).(size := Get(t, r).size + BY2BLK))
  }

  lemma MetaInv(t: Tree, r: Ref, n: Node)
    requires Inv(t) && Live(t, r) && n.blocks == Get(t, r).blocks && n.ind == Get(t, r).ind && n.stray == Get(t, r).stray
    ensures Inv(Set(t, r, n)) && Live(Set(t, r, n), r) && Get(Set(t, r, n), r) == n
    ensures forall q :: Valid(t, q) <==> Valid(Set(t, r, n), q)
    ensures forall q :: Valid(t, q) && q != r ==> Get(Set(t, r, n), q) == Get(t, q)
  {
    var u := Set(t, r, n);
    forall k | 0 <= k < |u.free| ensures u.free[k] < |u.slots| && FreeOk(u, u.free[k]) && u.free[k] !in u.inds {
      assert FreeOk(t, t.free[k]);
      assert u.slots[u.free[k]] == t.slots[u.free[k]];
    }
    forall q, m | Valid(u, q) ensures BlockOk(u, q, m) { assert BlockOk(t, q, m); }
    forall q, m, p, k | Valid(u, q) && Valid(u, p) ensures BlocksDiffer(u, q, m, p, k) {
      assert BlocksDiffer(t, q, m, p, k);
    }
  }

  lemma GrowInv(t: Tree, r: Ref)
    requires Inv(t) && Live(t, r)
    ensures Inv(Grow(t, r)) && Live(Grow(t, r), r)
    ensures Get(Grow(t, r), r) == Get(t, r).(size := Get(t, r).size + BY2BLK)
  {
    MetaInv(t, r, Get(t, r).(size := Get(t, r).size + BY2BLK));
  }

  /** dir_alloc_file: the first unused slot, or slot 0 of one more block. The directory has
      already grown when that block cannot be had. */
  function DirAlloc(t: Tree, dir: Ref): (Tree, Code, Ref)
    requires Inv(t) && Live(t, dir)
  {
    SearchExtends(t, dir, "", 0, Blocks(Get(t, dir)));
    var (u, e, q) := SearchFrom(t, dir, "", 0, Blocks(Get(t, dir)));
    if e != NotFound then (u, e, q)
    else
      GrowInv(u, dir);
      var (v, e1, b) := GetBlock(Grow(u, dir), dir, Blocks(Get(t, dir)));
      if e1 != Ok then (v, e1, Root) else (v, Ok, Slot(b, 0))
  }

  lemma DirAllocLive(t: Tree, dir: Ref)
    requires Inv(t) && Live(t, dir)
    ensures var (u, e, q) := DirAlloc(t, dir); Inv(u) && (e == Ok ==> q.Slot? && Live(u, q))
  {
    var n := Blocks(Get(t, dir));
    SearchExtends(t, dir, "", 0, n);
    SearchHits(t, dir, "", 0, n);
    var (u, e, q) := SearchFrom(t, dir, "", 0, n);
    if e == NotFound {
      GrowInv(u, dir);
      GetBlockInv(Grow(u, dir), dir, n);
      hide Inv, SearchFrom, GetBlock, Set, Grow, Get;
    } else {
      hide Inv, SearchFrom, GetBlock, Set, Grow, Get;
    }
  }

  /** file_create. When no slot can be had it returns walk_path's -E_NOT_FOUND; a left-over pointer
      may also lead it to a slot that is not the directory's. */
  function Create(t: Tree, path: string): (Tree, Code, Ref)
    requires Inv(t)
  {
    WalkLive(t, None, Root, Components(path));
    var (u, w) := WalkFrom(t, None, Root, Components(path));
    if w.res == Ok then (u, Exists, Root)
    else if w.res != NotFound || w.pdir == None || w.last == None then (u, w.res, Root)
    else
      DirAllocLive(u, w.pdir.value);
      var (v, e, q) := DirAlloc(u, w.pdir.value);
      if e == Stray then (v, Stray, Root)
      else if e != Ok then (v, w.res, Root)
      else (Rename(v, q, w.last.value), Ok, q)
  }

  lemma {:induction false} WalkLive(t: Tree, dir: Option<Ref>, file: Ref, cs: seq<string>)
    requires Inv(t) && Live(t, file)
    ensures var (u, w) := WalkFrom(t, dir, file, cs); Inv(u) && (w.res == NotFound && w.pdir.Some? ==> Live(u, w.pdir.value))
    decreases |cs|
  {
    if cs != [] && |cs[0]| < MAXNAMELEN && Get(t, file).dir {
      WalkStep(t, dir, file, cs);
      var (u, e, q) := DirLookup(t, file, cs[0]);
      if e == Ok { WalkLive(u, Some(file), q, cs[1..]); }
    }
  }

  // ---------- what a new name changes ----------

  lemma RenameGets(t: Tree, q: Ref, name: string, r: Ref)
    requires Valid(t, q) && Valid(t, r)
    ensures Valid(Rename(t, q, name), r)
    ensures Get(Rename(t, q, name), r) == if r == q then Get(t, q).(name := name) else Get(t, r)
  {}

  lemma RenameInv(t: Tree, q: Ref, name: string)
    requires Inv(t) && Live(t, q)
    ensures Inv(Rename(t, q, name)) && Live(Rename(t, q, name), q)
  {
    MetaInv(t, q, Get(t, q).(name := name));
  }

  /** Slot q is in block k of directory d. */
  predicate SlotOf(t: Tree, q: Ref, d: Ref, k: nat)
    requires Valid(t, d)
  {
    q.Slot? && Live(t, q) && k in Get(t, d).blocks && Get(t, d).blocks[k] == q.b
  }

  /** Naming a slot leaves a search alone that does not scan the slot's block, or that looks for
      neither the slot's old name nor its new one. */
  lemma {:induction false} RenameMisses(t: Tree, q: Ref, name: string, d: Ref, k: nat, r: Ref, nm: string, i: nat, n: nat)
    requires Inv(t) && Valid(t, d) && SlotOf(t, q, d, k) && Valid(t, r)
    requires r != d || k < i || k >= n || (nm != name && nm != Get(t, q).name)
    ensures Inv(Rename(t, q, name)) && Valid(Rename(t, q, name), r)
    ensures Find(Rename(t, q, name), r, nm, i, n) == Find(t, r, nm, i, n)
    decreases n - i
  {
    var u := Rename(t, q, name);
    RenameInv(t, q, name);
    RenameGets(t, q, name, r);
    if i < n {
      RenameMisses(t, q, name, d, k, r, nm, i + 1, n);
      assert BlockOk(t, r, i);
      if i in Get(t, r).blocks {
        assert BlocksDiffer(t, r, i, d, k);
        hide Inv, Rename, Scan;
        ScanRenamed(t, q, name, Get(t, r).blocks[i], nm, 0);
        FindRound(t, r, nm, i, n);
        FindRound(u, r, nm, i, n);
        hide Find;
      }
    }
  }

  lemma {:induction false} ScanRenamed(t: Tree, q: Ref, name: string, b: nat, nm: string, j: nat)
    requires Inv(t) && q.Slot? && Live(t, q) && b < |t.slots| && j <= FILE2BLK
    requires b != q.b || (nm != name && nm != Get(t, q).name)
    ensures Inv(Rename(t, q, name)) && Scan(Rename(t, q, name), b, nm, j) == Scan(t, b, nm, j)
    decreases FILE2BLK - j
  {
    RenameInv(t, q, name);
    if j < FILE2BLK { ScanRenamed(t, q, name, b, nm, j + 1); }
  }

  /** The block of the new name holds no earlier slot with that name. */
  predicate FirstThere(t: Tree, q: Ref, name: string) {
    q.Slot? && Valid(t, q) && forall j :: 0 <= j < q.j ==> t.slots[q.b][j].name != name
  }

  lemma {:induction false} ScanHits(t: Tree, q: Ref, name: string, j: nat)
    requires Inv(t) && Live(t, q) && FirstThere(t, q, name) && j <= q.j
    ensures Inv(Rename(t, q, name)) && Scan(Rename(t, q, name), q.b, name, j) == q.j
    decreases q.j - j
  {
    RenameInv(t, q, name);
    if j < q.j { ScanHits(t, q, name, j + 1); }
  }

  /** After naming a slot of block k, a search that found nothing before block k finds the slot. */
  lemma {:induction false} RenameHits(t: Tree, q: Ref, name: string, d: Ref, k: nat, i: nat, n: nat)
    requires Inv(t) && Valid(t, d) && SlotOf(t, q, d, k) && FirstThere(t, q, name) && i <= k < n
    requires Find(t, d, name, i, k) == None
    ensures Inv(Rename(t, q, name)) && Valid(Rename(t, q, name), d)
    ensures Find(Rename(t, q, name), d, name, i, n) == Some(q)
    decreases k - i
  {
    RenameInv(t, q, name);
    RenameGets(t, q, name, d);
    if i == k {
      ScanHits(t, q, name, 0);
      FindRound(Rename(t, q, name), d, name, i, n);
    } else {
      RenameHits(t, q, name, d, k, i + 1, n);
      assert BlockOk(t, d, i);
      if i in Get(t, d).blocks {
        assert BlocksDiffer(t, d, i, d, k);
        ScanRenamed(t, q, name, Get(t, d).blocks[i], name, 0);
      }
    }
  }

  /** A search that finds nothing has no match in any block it scans. */
  lemma {:induction false} FindNone(t: Tree, d: Ref, name: string, i: nat, n: nat, k: nat)
    requires Inv(t) && Valid(t, d) && Find(t, d, name, i, n) == None && i <= k < n && k in Get(t, d).blocks
    ensures Find(t, d, name, i, k) == None
    ensures Get(t, d).blocks[k] < |t.slots|
    ensures forall j :: 0 <= j < |t.slots[Get(t, d).blocks[k]]| ==> t.slots[Get(t, d).blocks[k]][j].name != name
    decreases n - i
  {
    assert BlockOk(t, d, i) && BlockOk(t, d, k);
    if i < k { FindNone(t, d, name, i + 1, n, k); }
  }

  lemma {:induction false} FindMore(t: Tree, d: Ref, name: string, i: nat, n: nat, m: nat)
    requires Inv(t) && Valid(t, d) && n <= m && Find(t, d, name, i, n).Some?
    ensures Find(t, d, name, i, m) == Find(t, d, name, i, n)
    decreases n - i
  {
    assert BlockOk(t, d, i);
    if i < n && (i !in Get(t, d).blocks || Scan(t, Get(t, d).blocks[i], name, 0) == FILE2BLK) {
      FindMore(t, d, name, i + 1, n, m);
    }
  }

  lemma GrowScan(t: Tree, d: Ref, b: nat, name: string)
    requires Inv(t) && Live(t, d) && b < |t.slots|
    ensures Inv(Grow(t, d)) && b < |Grow(t, d).slots| && Scan(Grow(t, d), b, name, 0) == Scan(t, b, name, 0)
  {
    GrowInv(t, d);
    var u := Grow(t, d);
    forall k | 0 <= k < FILE2BLK ensures t.slots[b][k].name == u.slots[b][k].name {
      assert Get(u, Slot(b, k)).name == Get(t, Slot(b, k)).name;
    }
    ScanSame(t, u, b, name, 0);
  }

  lemma GrowGets(t: Tree, d: Ref, r: Ref)
    requires Valid(t, d) && Valid(t, r)
    ensures Valid(Grow(t, d), r)
    ensures Get(Grow(t, d), r) == if r == d then Get(t, d).(size := Get(t, d).size + BY2BLK) else Get(t, r)
  {}

  lemma {:induction false} GrowFind(t: Tree, d: Ref, r: Ref, name: string, i: nat, n: nat)
    requires Inv(t) && Live(t, d) && Valid(t, r)
    ensures Inv(Grow(t, d)) && Valid(Grow(t, d), r) && Find(Grow(t, d), r, name, i, n) == Find(t, r, name, i, n)
    decreases n - i
  {
    GrowInv(t, d);
    GrowGets(t, d, r);
    if i < n {
      GrowFind(t, d, r, name, i + 1, n);
      assert BlockOk(t, r, i);
      if i in Get(t, r).blocks {
        hide Inv, Grow, Get, Scan;
        GrowScan(t, d, Get(t, r).blocks[i], name);
        FindRound(t, r, name, i, n);
        FindRound(Grow(t, d), r, name, i, n);
        hide Find;
      }
    }
  }

  lemma {:induction false} SearchSlot(t: Tree, r: Ref, name: string, i: nat, n: nat) returns (k: nat)
    requires Inv(t) && Live(t, r) && NoHoles(t, r, i, n) && SearchFrom(t, r, name, i, n).1 == Ok
    ensures i <= k < n && SlotOf(t, SearchFrom(t, r, name, i, n).2, r, k)
    decreases n - i
  {
    SearchRound(t, r, name, i, n);
    PresentBlock(t, r, i, n);
    hide Inv, Live, Scan, SearchFrom;
    if Scan(t, GetBlock(t, r, i).2, name, 0) == FILE2BLK { k := SearchSlot(t, r, name, i + 1, n); } else { k := i; }
  }

  /** The directory entries of u are those of t and one more, `name` in d, which is slot q. */
  ghost predicate Adds(t: Tree, u: Tree, d: Ref, name: string, q: Ref) {
    && Inv(t) && Inv(u) && Valid(t, d) && Valid(u, d) && Live(u, q)
    && Entry(t, d, name) == None && Entry(u, d, name) == Some(q)
    && (forall r :: Valid(t, r) ==> Valid(u, r) && Get(u, r).dir == Get(t, r).dir)
    && (forall r, nm :: Valid(t, r) && nm != "" ==> Keeps(t, u, r, nm))
  }

  ghost predicate Keeps(t: Tree, u: Tree, r: Ref, nm: string)
    requires Inv(t) && Inv(u) && Valid(t, r) && Valid(u, r)
  {
    Entry(t, r, nm).Some? ==> Entry(u, r, nm) == Entry(t, r, nm)
  }

  /** No other entry appears either. */
  ghost predicate AddsOnly(t: Tree, u: Tree, d: Ref, name: string, q: Ref) {
    && Adds(t, u, d, name, q)
    && forall r, nm :: Valid(t, r) && nm != "" && (r != d || nm != name) ==> Entry(u, r, nm) == Entry(t, r, nm)
  }

  lemma RenameAdds(t: Tree, d: Ref, name: string, q: Ref, k: nat)
    requires Inv(t) && Live(t, d) && name != "" && SlotOf(t, q, d, k) && Get(t, q).name == ""
    requires k < Blocks(Get(t, d)) && Entry(t, d, name) == None
    ensures AddsOnly(t, Rename(t, q, name), d, name, q)
  {
    var u := Rename(t, q, name);
    var n := Blocks(Get(t, d));
    RenameInv(t, q, name);
    FindNone(t, d, name, 0, n, k);
    RenameHits(t, q, name, d, k, 0, n);
    RenameGets(t, q, name, d);
    forall r | Valid(t, r) ensures Valid(u, r) && Get(u, r).dir == Get(t, r).dir { RenameGets(t, q, name, r); }
    hide Inv, Rename, Find, Get, Live;
    forall r, nm | Valid(t, r) && nm != "" && (r != d || nm != name) ensures Entry(u, r, nm) == Entry(t, r, nm) {
      RenameEntry(t, d, name, q, k, r, nm);
    }
  }

  lemma RenameEntry(t: Tree, d: Ref, name: string, q: Ref, k: nat, r: Ref, nm: string)
    requires Inv(t) && Live(t, d) && name != "" && SlotOf(t, q, d, k) && Get(t, q).name == ""
    requires Valid(t, r) && nm != "" && (r != d || nm != name)
    ensures Inv(Rename(t, q, name)) && Valid(Rename(t, q, name), r)
    ensures Entry(Rename(t, q, name), r, nm) == Entry(t, r, nm)
  {
    RenameGets(t, q, name, r);
    RenameMisses(t, q, name, d, k, r, nm, 0, Blocks(Get(t, r)));
  }

  /** The tree after dir_alloc_file has grown d and slot 0 of the new last block is named. */
  function Grown(t: Tree, d: Ref, name: string): Tree
    requires Valid(t, d)
    requires var (w, e, b) := GetBlock(Grow(t, d), d, Blocks(Get(t, d))); e == Ok && Valid(w, Slot(b, 0))
  {
    var (w, e, b) := GetBlock(Grow(t, d), d, Blocks(Get(t, d)));
    Rename(w, Slot(b, 0), name)
  }

  predicate CanGrow(t: Tree, d: Ref)
    requires Valid(t, d)
  {
    GetBlock(Grow(t, d), d, Blocks(Get(t, d))).1 == Ok
  }

  /** Whether a block can be had, and which, does not depend on the size. */
  lemma GrowCases(t: Tree, d: Ref, i: nat)
    requires Inv(t) && Live(t, d)
    ensures var (u, e, b) := GetBlock(Grow(t, d), d, i);
            && e == Why(t, d, i)
            && (if e == Ok then b == Target(t, d, i) else u == Left(Grow(t, d), d, i))
  {
    GrowInv(t, d);
    GetBlockCases(Grow(t, d), d, i);
    GrowGets(t, d, d);
    hide GetBlock, Left, Inv;
  }

  lemma GrowBlock(t: Tree, d: Ref)
    requires Inv(t) && Live(t, d) && CanGrow(t, d)
    ensures var (w, e, b) := GetBlock(Grow(t, d), d, Blocks(Get(t, d)));
            && Inv(w) && Live(w, d) && SlotOf(w, Slot(b, 0), d, Blocks(Get(t, d)))
            && Get(w, d).size == Get(t, d).size + BY2BLK && Blocks(Get(w, d)) == Blocks(Get(t, d)) + 1
            && Get(w, d).blocks == Get(t, d).blocks[Blocks(Get(t, d)) := b]
            && Inv(Grow(t, d)) && Extends(Grow(t, d), w) && b == Target(t, d, Blocks(Get(t, d)))
  {
    GrowInv(t, d);
    GrowGets(t, d, d);
    var n := Blocks(Get(t, d));
    GrowCases(t, d, n);
    GetBlockInv(Grow(t, d), d, n);
    GetBlockExtends(Grow(t, d), d, n);
    GetBlockSelf(Grow(t, d), d, n);
    hide Inv, GetBlock, Extends, Grow, Target, Why;
  }

  lemma GrownGets(t: Tree, d: Ref, name: string, r: Ref)
    requires Inv(t) && Live(t, d) && CanGrow(t, d) && Valid(t, r)
    ensures var (w, e, b) := GetBlock(Grow(t, d), d, Blocks(Get(t, d)));
            && Valid(w, Slot(b, 0)) && Inv(Grown(t, d, name)) && Live(Grown(t, d, name), Slot(b, 0))
            && Valid(w, r) && Get(w, r).size == Get(t, r).size + (if r == d then BY2BLK else 0)
            && Valid(Grown(t, d, name), r) && Get(Grown(t, d, name), r).dir == Get(t, r).dir
            && Get(Grown(t, d, name), r).size == Get(w, r).size
  {
    GrowBlock(t, d);
    GrowGets(t, d, r);
    var (w, e, b) := GetBlock(Grow(t, d), d, Blocks(Get(t, d)));
    assert Kept(Grow(t, d), w, r);
    RenameInv(w, Slot(b, 0), name);
    RenameGets(w, Slot(b, 0), name, r);
  }

  lemma GrownFind(t: Tree, d: Ref, r: Ref, nm: string, m: nat)
    requires Inv(t) && Live(t, d) && CanGrow(t, d) && Valid(t, r) && (r != d || m <= Blocks(Get(t, d)))
    ensures var w := GetBlock(Grow(t, d), d, Blocks(Get(t, d))).0;
            Inv(w) && Valid(w, r) && Find(w, r, nm, 0, m) == Find(t, r, nm, 0, m)
  {
    GrowBlock(t, d);
    GrowFind(t, d, r, nm, 0, m);
    GrowGets(t, d, r);
    GetBlockOther(Grow(t, d), d, Blocks(Get(t, d)), r);
    hide GetBlock, Grow, Find, Inv, Extends;
    FindSame(Grow(t, d), GetBlock(Grow(t, d), d, Blocks(Get(t, d))).0, r, nm, 0, m);
  }

  lemma GrownHits(t: Tree, d: Ref, name: string)
    requires Inv(t) && Live(t, d) && CanGrow(t, d) && name != "" && Entry(t, d, name) == None
    ensures var (w, e, b) := GetBlock(Grow(t, d), d, Blocks(Get(t, d)));
            && Valid(w, Slot(b, 0)) && Inv(Grown(t, d, name)) && Valid(Grown(t, d, name), d)
            && Entry(Grown(t, d, name), d, name) == Some(Slot(b, 0))
  {
    var n := Blocks(Get(t, d));
    GrowBlock(t, d);
    GrownGets(t, d, name, d);
    GrownFind(t, d, d, name, n);
    var (w, e, b) := GetBlock(Grow(t, d), d, n);
    hide Inv, Grow, GetBlock, Extends, Find, Rename;
    assert FirstThere(w, Slot(b, 0), name);
    RenameHits(w, Slot(b, 0), name, d, n, 0, n + 1);
  }

  lemma GrownKeeps(t: Tree, d: Ref, name: string, r: Ref, nm: string)
    requires Inv(t) && Live(t, d) && CanGrow(t, d) && Valid(t, r)
    ensures var (w, e, b) := GetBlock(Grow(t, d), d, Blocks(Get(t, d)));
            && Valid(w, Slot(b, 0)) && Inv(Grown(t, d, name)) && Valid(Grown(t, d, name), r)
            && Keeps(t, Grown(t, d, name), r, nm)
            && (r != d ==> Entry(Grown(t, d, name), r, nm) == Entry(t, r, nm))
  {
    var n := Blocks(Get(t, d));
    GrowBlock(t, d);
    GrownGets(t, d, name, r);
    var u := Grown(t, d, name);
    var (w, e, b) := GetBlock(Grow(t, d), d, n);
    hide Inv, Grow, GetBlock, Extends, Find, Rename, Live;
    if r != d {
      GrownFind(t, d, r, nm, Blocks(Get(t, r)));
      RenameMisses(w, Slot(b, 0), name, d, n, r, nm, 0, Blocks(Get(t, r)));
    } else {
      GrownFind(t, d, d, nm, n);
      RenameMisses(w, Slot(b, 0), name, d, n, d, nm, 0, n);
      if Entry(t, d, nm).Some? { FindMore(u, d, nm, 0, n, n + 1); }
    }
  }

  /** No old entry waits in the block that the directory would grow over, be it there already or
      still free: every name in it but the first slot's is empty, or the new one, or already an
      entry. */
  ghost predicate Quiet(t: Tree, d: Ref, name: string)
    requires Inv(t) && Valid(t, d)
  {
    forall j :: 0 < j < FILE2BLK ==> NoOldName(t, d, name, Target(t, d, Blocks(Get(t, d))), j)
  }

  ghost predicate NoOldName(t: Tree, d: Ref, name: string, b: nat, j: nat)
    requires Inv(t) && Valid(t, d)
  {
    b < |t.slots| && j < FILE2BLK ==>
      var nm := t.slots[b][j].name; nm == "" || nm == name || Entry(t, d, nm).Some?
  }

  /** Growing over block b: what its slots are called afterwards. */
  lemma GrownOverNames(t: Tree, d: Ref, name: string, j: nat)
    requires Inv(t) && Live(t, d) && CanGrow(t, d) && j < FILE2BLK
    ensures var b := Target(t, d, Blocks(Get(t, d)));
            && GetBlock(Grow(t, d), d, Blocks(Get(t, d))).2 == b && b < |t.slots|
            && Valid(GetBlock(Grow(t, d), d, Blocks(Get(t, d))).0, Slot(b, 0))
            && Valid(t, Slot(b, j)) && Valid(Grown(t, d, name), Slot(b, j))
            && Get(Grown(t, d, name), Slot(b, j)).name == if j == 0 then name else t.slots[b][j].name
  {
    var n := Blocks(Get(t, d));
    GrowBlock(t, d);
    GetBlockOther(Grow(t, d), d, n, d);
    var w := GetBlock(Grow(t, d), d, n).0;
    var b := Target(t, d, n);
    assert |t.slots[b]| == FILE2BLK && |Grow(t, d).slots| == |t.slots|;
    assert Valid(t, Slot(b, j));
    GrowNames(t, d, Slot(b, j));
    GetBlockOther(Grow(t, d), d, n, Slot(b, j));
    hide Inv, GetBlock, Grow, Extends, Rename;
    RenameGets(w, Slot(b, 0), name, Slot(b, j));
  }

  lemma GrowNames(t: Tree, d: Ref, r: Ref)
    requires Valid(t, d) && Valid(t, r)
    ensures Valid(Grow(t, d), r) && Get(Grow(t, d), r).name == Get(t, r).name
  {}

  lemma {:induction false} FindSnoc(t: Tree, d: Ref, nm: string, i: nat, n: nat)
    requires Inv(t) && Valid(t, d) && i <= n && Find(t, d, nm, i, n) == None && n in Get(t, d).blocks
    requires Get(t, d).blocks[n] < |t.slots| && Scan(t, Get(t, d).blocks[n], nm, 0) == FILE2BLK
    ensures Find(t, d, nm, i, n + 1) == None
    decreases n - i
  {
    assert BlockOk(t, d, i);
    if i < n { FindSnoc(t, d, nm, i + 1, n); } else { FindRound(t, d, nm, n, n + 1); }
  }

  /** An entry other than the new one appears by growing exactly if its name waits in the block. */
  lemma GrownOverEntry(t: Tree, d: Ref, name: string, nm: string)
    requires Inv(t) && Live(t, d) && CanGrow(t, d)
    requires nm != name && Entry(t, d, nm) == None
    ensures var b := Target(t, d, Blocks(Get(t, d)));
            && Valid(GetBlock(Grow(t, d), d, Blocks(Get(t, d))).0, Slot(GetBlock(Grow(t, d), d, Blocks(Get(t, d))).2, 0))
            && Inv(Grown(t, d, name)) && Valid(Grown(t, d, name), d) && b < |t.slots|
            && (Entry(Grown(t, d, name), d, nm).Some? <==> exists j :: 0 < j < FILE2BLK && t.slots[b][j].name == nm)
  {
    var n := Blocks(Get(t, d));
    var b := Target(t, d, n);
    GrowBlock(t, d);
    GrownGets(t, d, name, d);
    GrownFind(t, d, d, nm, n);
    var w := GetBlock(Grow(t, d), d, n).0;
    var u := Grown(t, d, name);
    forall j: nat | j < FILE2BLK
      ensures Valid(u, Slot(b, j)) && b < |t.slots| && u.slots[b][j].name == if j == 0 then name else t.slots[b][j].name
    {
      GrownOverNames(t, d, name, j);
    }
    GrownOverNames(t, d, name, 0);
    RenameGets(w, Slot(b, 0), name, d);
    RenameMisses(w, Slot(b, 0), name, d, n, d, nm, 0, n);
    hide Grow, GetBlock, Extends, Find, Rename, Live, Grown;
    assert Get(u, d).blocks[n] == b;
    GrownOverScan(t, u, d, nm, b, n);
  }

  lemma GrownOverScan(t: Tree, u: Tree, d: Ref, nm: string, b: nat, n: nat)
    requires Inv(u) && Valid(u, d) && n in Get(u, d).blocks && Get(u, d).blocks[n] == b && b < |u.slots|
    requires Find(u, d, nm, 0, n) == None
    ensures Find(u, d, nm, 0, n + 1).Some? <==> exists j :: 0 <= j < FILE2BLK && u.slots[b][j].name == nm
  {
    var k := Scan(u, b, nm, 0);
    if k == FILE2BLK {
      FindSnoc(u, d, nm, 0, n);
    } else if Find(u, d, nm, 0, n + 1) == None {
      FindNone(u, d, nm, 0, n + 1, n);
    }
  }

  lemma GrownAdds(t: Tree, d: Ref, name: string)
    requires Inv(t) && Live(t, d) && CanGrow(t, d) && name != "" && Entry(t, d, name) == None
    ensures var (w, e, b) := GetBlock(Grow(t, d), d, Blocks(Get(t, d)));
            Valid(w, Slot(b, 0)) && Adds(t, Grown(t, d, name), d, name, Slot(b, 0))
  {
    GrownHits(t, d, name);
    GrownGets(t, d, name, d);
    var u := Grown(t, d, name);
    hide Inv, Grow, GetBlock, Live, Get, Entry, Grown, CanGrow;
    forall r | Valid(t, r) ensures Valid(u, r) && Get(u, r).dir == Get(t, r).dir { GrownGets(t, d, name, r); }
    forall r, nm | Valid(t, r) && nm != "" ensures Keeps(t, u, r, nm) { GrownKeeps(t, d, name, r, nm); }
  }

  /** An entry of another directory, or of this one under another name, after growing. */
  lemma GrownOther(t: Tree, d: Ref, name: string, r: Ref, nm: string)
    requires Inv(t) && Live(t, d) && CanGrow(t, d) && Valid(t, r) && nm != "" && (r != d || nm != name)
    requires Quiet(t, d, name)
    ensures var (w, e, b) := GetBlock(Grow(t, d), d, Blocks(Get(t, d)));
            && Valid(w, Slot(b, 0)) && Inv(Grown(t, d, name)) && Valid(Grown(t, d, name), r)
            && Entry(Grown(t, d, name), r, nm) == Entry(t, r, nm)
  {
    GrownKeeps(t, d, name, r, nm);
    if r == d && Entry(t, d, nm) == None {
      GrownOverEntry(t, d, name, nm);
      var b := Target(t, d, Blocks(Get(t, d)));
      forall j: nat | 0 < j < FILE2BLK ensures t.slots[b][j].name != nm { assert NoOldName(t, d, name, b, j); }
    }
  }

  lemma LoudAdds(t: Tree, d: Ref, name: string)
    requires Inv(t) && Live(t, d) && CanGrow(t, d) && name != "" && Entry(t, d, name) == None
    requires !Quiet(t, d, name)
    ensures var (w, e, b) := GetBlock(Grow(t, d), d, Blocks(Get(t, d)));
            Valid(w, Slot(b, 0)) && !AddsOnly(t, Grown(t, d, name), d, name, Slot(b, 0))
  {
    GrownAdds(t, d, name);
    var n := Blocks(Get(t, d));
    var b := Target(t, d, n);
    var j: nat :| 0 < j < FILE2BLK && !NoOldName(t, d, name, b, j);
    GrownOverEntry(t, d, name, t.slots[b][j].name);
  }

  /** dir_alloc_file's second way always adds the new entry and keeps the old ones; it adds nothing
      else exactly if no old entry waits in the block. */
  lemma GrowAdds(t: Tree, d: Ref, name: string)
    requires Inv(t) && Live(t, d) && CanGrow(t, d) && name != "" && Entry(t, d, name) == None
    ensures var (w, e, b) := GetBlock(Grow(t, d), d, Blocks(Get(t, d)));
            && Valid(w, Slot(b, 0)) && Adds(t, Grown(t, d, name), d, name, Slot(b, 0))
            && (AddsOnly(t, Grown(t, d, name), d, name, Slot(b, 0)) <==> Quiet(t, d, name))
  {
    GrownAdds(t, d, name);
    var u := Grown(t, d, name);
    hide Inv, Grow, GetBlock, Live, Get, Entry, Grown, CanGrow, Quiet, Adds;
    if Quiet(t, d, name) {
      forall r, nm | Valid(t, r) && nm != "" && (r != d || nm != name) ensures Entry(u, r, nm) == Entry(t, r, nm) {
        GrownOther(t, d, name, r, nm);
      }
    } else {
      LoudAdds(t, d, name);
    }
  }

  // ---------- file_create makes the path exist ----------

  /** Some slot of the directory is unused. */
  ghost predicate HasUnused(t: Tree, d: Ref)
    requires Inv(t) && Valid(t, d)
  {
    Entry(t, d, "").Some?
  }

  /** In a directory without holes the search for an unused slot fails exactly if there is none. */
  lemma {:induction false} SearchUnused(t: Tree, d: Ref, i: nat, n: nat)
    requires Inv(t) && Live(t, d) && NoHoles(t, d, i, n)
    ensures SearchFrom(t, d, "", i, n).1 == if Find(t, d, "", i, n).Some? then Ok else NotFound
    decreases n - i
  {
    if i < n {
      SearchRound(t, d, "", i, n);
      PresentBlock(t, d, i, n);
      FindRound(t, d, "", i, n);
      hide *;
      if Scan(t, GetBlock(t, d, i).2, "", 0) == FILE2BLK { SearchUnused(t, d, i + 1, n); }
    }
  }

  /** dir_alloc_file in a directory without holes, for a name that is not there. */
  lemma DirAllocAdds(t: Tree, d: Ref, name: string)
    requires Inv(t) && Live(t, d) && NoHoles(t, d, 0, Blocks(Get(t, d))) && name != ""
    requires Entry(t, d, name) == None && DirAlloc(t, d).1 == Ok
    ensures var (v, e, q) := DirAlloc(t, d);
            && Inv(v) && Live(v, q) && Adds(t, Rename(v, q, name), d, name, q)
            && (AddsOnly(t, Rename(v, q, name), d, name, q) <==> HasUnused(t, d) || Quiet(t, d, name))
  {
    DirAllocLive(t, d);
    var n := Blocks(Get(t, d));
    SearchNoHoles(t, d, "", 0, n);
    SearchHits(t, d, "", 0, n);
    SearchUnused(t, d, 0, n);
    var (u, e, q) := SearchFrom(t, d, "", 0, n);
    hide Inv, Find, Entry, Rename, GetBlock, SearchFrom, Adds, AddsOnly, Quiet;
    if e == Ok {
      var k := SearchSlot(t, d, "", 0, n);
      RenameAdds(t, d, name, q, k);
      AddsOnlyAdds(t, Rename(t, q, name), d, name, q);
    } else {
      GrowAdds(t, d, name);
    }
  }

  lemma AddsOnlyAdds(t: Tree, u: Tree, d: Ref, name: string, q: Ref)
    requires AddsOnly(t, u, d, name, q)
    ensures Adds(t, u, d, name, q)
  {}

  predicate AllNamed(cs: seq<string>) { forall i :: 0 <= i < |cs| ==> cs[i] != "" }

  /** A path that stops for want of its last component continues through the added entry. */
  lemma {:induction false} AddsResolves(t: Tree, u: Tree, d: Ref, name: string, q: Ref,
                                        dir: Option<Ref>, file: Ref, cs: seq<string>)
    requires Adds(t, u, d, name, q) && Valid(t, file) && AllNamed(cs)
    requires Resolve(t, dir, file, cs) == Walked(NotFound, Some(d), None, Some(name))
    ensures Valid(u, file) && Resolve(u, dir, file, cs) == Walked(Ok, Some(d), Some(q), None)
    decreases |cs|
  {
    var e := Entry(t, file, cs[0]);
    assert Keeps(t, u, file, cs[0]);
    if e.Some? {
      EntryValid(t, file, cs[0]);
      AddsResolves(t, u, d, name, q, Some(file), e.value, cs[1..]);
    } else {
      assert Resolve(u, Some(d), q, cs[1..]) == Walked(Ok, Some(d), Some(q), None);
    }
  }

  lemma {:induction false} ResolveMissing(t: Tree, dir: Option<Ref>, file: Ref, cs: seq<string>)
    requires Inv(t) && Live(t, file) && AllNamed(cs)
    requires Resolve(t, dir, file, cs).res == NotFound && Resolve(t, dir, file, cs).pdir.Some?
    ensures var w := Resolve(t, dir, file, cs);
            && w.pfile == None && w.last.Some? && w.last.value != "" && Live(t, w.pdir.value)
            && Get(t, w.pdir.value).dir && Entry(t, w.pdir.value, w.last.value) == None
    decreases |cs|
  {
    var e := Entry(t, file, cs[0]);
    if e.Some? {
      EntryValid(t, file, cs[0]);
      ResolveMissing(t, Some(file), e.value, cs[1..]);
    }
  }

  /** After file_create(path) has succeeded in a tree without holes, the path leads exactly to
      the structure it returned, in the directory where walk_path had missed it; every path and
      entry that was there still is; and nothing else appeared exactly if the directory had an
      unused slot, or no old entry waited in the block it grew over. */
  lemma CreateFinds(t: Tree, path: string)
    requires Inv(t) && HoleFree(t) && Create(t, path).1 == Ok
    ensures var (u, e, q) := Create(t, path);
            var w := Resolve(t, None, Root, Components(path));
            && w.res == NotFound && w.pdir.Some? && w.last.Some?
            && Valid(t, w.pdir.value) && Adds(t, u, w.pdir.value, w.last.value, q)
            && (AddsOnly(t, u, w.pdir.value, w.last.value, q)
                <==> HasUnused(t, w.pdir.value) || Quiet(t, w.pdir.value, w.last.value))
            && Resolve(u, None, Root, Components(path)) == Walked(Ok, w.pdir, Some(q), None)
  {
    var cs := Components(path);
    WalkNoHoles(t, None, Root, cs);
    var w := Resolve(t, None, Root, cs);
    ResolveMissing(t, None, Root, cs);
    var d, name := w.pdir.value, w.last.value;
    assert NoHoles(t, d, 0, Blocks(Get(t, d)));
    DirAllocAdds(t, d, name);
    hide Inv, Resolve, Adds, AddsOnly, Rename, DirAlloc;
    AddsResolves(t, Create(t, path).0, d, name, Create(t, path).2, None, Root, cs);
  }

  lemma RenameHoleFree(t: Tree, q: Ref, name: string)
    requires Valid(t, q)
    ensures HoleFree(Rename(t, q, name)) <==> HoleFree(t)
  {
    var u := Rename(t, q, name);
    forall r ensures Live(u, r) <==> Live(t, r) {}
    forall r | Live(t, r) ensures Get(u, r).dir == Get(t, r).dir && Get(u, r).size == Get(t, r).size
                                  && Get(u, r).blocks == Get(t, r).blocks
    {
      RenameGets(t, q, name, r);
    }
    if HoleFree(t) { assert forall r :: Live(t, r) && Get(t, r).dir ==> NoHoles(t, r, 0, Blocks(Get(t, r))); }
    if HoleFree(u) { assert forall r :: Live(u, r) && Get(u, r).dir ==> NoHoles(u, r, 0, Blocks(Get(u, r))); }
    hide Rename, Get, Live;
  }

  /** The block that the directory would grow into is free and holds a directory with blocks, all of
      whose pointers are left over. */
  ghost predicate Revives(t: Tree, d: Ref)
    requires Valid(t, d)
  {
    var n := Blocks(Get(t, d));
    n !in Get(t, d).blocks && exists j :: 0 <= j < FILE2BLK && Ghostly(t, Slot(Target(t, d, n), j))
  }

  predicate Ghostly(t: Tree, r: Ref) { Valid(t, r) && Get(t, r).dir && Blocks(Get(t, r)) > 0 }

  /** What is live once the directory has grown: what was, and the slots of the block it took. */
  lemma GrownLive(t: Tree, d: Ref, r: Ref)
    requires Inv(t) && Live(t, d) && CanGrow(t, d)
    ensures var (w, e, b) := GetBlock(Grow(t, d), d, Blocks(Get(t, d)));
            && (Live(w, r) <==> Live(t, r) || (r.Slot? && r.b == b && r.j < FILE2BLK))
            && (r.Slot? && r.b == b && r.j < FILE2BLK ==> Valid(t, r))
            && (Valid(t, r) && r != d ==> Valid(w, r) && Get(w, r) == Get(t, r))
            && (Blocks(Get(t, d)) !in Get(t, d).blocks && r.Slot? && r.b == b ==> !Live(t, r) && r != d)
  {
    var n := Blocks(Get(t, d));
    GrowBlock(t, d);
    GrowGets(t, d, d);
    if Valid(t, r) {
      GrowGets(t, d, r);
      GetBlockOther(Grow(t, d), d, n, r);
    }
    GrownSlots(t, d, r);
  }

  lemma GrownSlots(t: Tree, d: Ref, r: Ref)
    requires Inv(t) && Live(t, d) && CanGrow(t, d)
    ensures var (w, e, b) := GetBlock(Grow(t, d), d, Blocks(Get(t, d)));
            && |w.slots| == |t.slots| && (Valid(w, r) <==> Valid(t, r)) && b < |t.slots| && |t.slots[b]| == FILE2BLK
            && (forall x :: InData(w, x) <==> InData(t, x) || x == b)
            && (Blocks(Get(t, d)) !in Get(t, d).blocks ==> b in t.free)
  {
    var n := Blocks(Get(t, d));
    GrowBlock(t, d);
    GrowGets(t, d, d);
    GetBlockInv(Grow(t, d), d, n);
    GetBlockSelf(Grow(t, d), d, n);
    GetBlockOther(Grow(t, d), d, n, d);
    var (w, e, b) := GetBlock(Grow(t, d), d, n);
    assert |w.slots| == |t.slots| && Grow(t, d).free == t.free && Grow(t, d).inds == t.inds;
    if n !in Get(t, d).blocks { TakenInData(t, w, b, if NeedsInd(Get(t, d), n) then 1 else 0); }
    hide GetBlock, Grow, Extends;
  }

  lemma TakenInData(t: Tree, w: Tree, b: nat, k: nat)
    requires Inv(t) && k < |t.free| && k <= 1 && b == t.free[k] && w.free == t.free[k + 1..]
    requires w.inds == t.inds + (if k == 1 then {t.free[0]} else {})
    ensures forall x :: InData(w, x) <==> InData(t, x) || x == b
  {
    forall x ensures x in t.free <==> x in w.free || x == b || (k == 1 && x == t.free[0]) {
      if x in t.free { var m :| 0 <= m < |t.free| && t.free[m] == x; if m > k { assert w.free[m - k - 1] == x; } }
    }
    forall m | 0 <= m < |w.free| ensures w.free[m] != b { assert t.free[m + k + 1] == w.free[m]; }
    assert b !in w.inds by { if k == 1 { assert t.free[0] != t.free[1]; } }
  }

  /** Growing keeps a tree without holes so, exactly if it brings no directory back. */
  lemma GrownHoleFree(t: Tree, d: Ref, name: string)
    requires Inv(t) && Live(t, d) && CanGrow(t, d) && HoleFree(t) && Get(t, d).dir && Blocks(Get(t, d)) < MAXBLOCKS
    ensures var (w, e, b) := GetBlock(Grow(t, d), d, Blocks(Get(t, d)));
            Valid(w, Slot(b, 0)) && (HoleFree(Grown(t, d, name)) <==> !Revives(t, d))
  {
    GrowBlock(t, d);
    var n := Blocks(Get(t, d));
    var (w, e, b) := GetBlock(Grow(t, d), d, n);
    RenameHoleFree(w, Slot(b, 0), name);
    if n in Get(t, d).blocks { GrownOverHoles(t, d); } else { GrownIntoHoles(t, d); }
  }

  lemma GrownOverHoles(t: Tree, d: Ref)
    requires Inv(t) && Live(t, d) && CanGrow(t, d) && HoleFree(t) && Get(t, d).dir && Blocks(Get(t, d)) < MAXBLOCKS
    requires Blocks(Get(t, d)) in Get(t, d).blocks
    ensures HoleFree(GetBlock(Grow(t, d), d, Blocks(Get(t, d))).0)
  {
    var n := Blocks(Get(t, d));
    GrowBlock(t, d);
    var (w, e, b) := GetBlock(Grow(t, d), d, n);
    assert BlockOk(t, d, n);
    forall r | Live(w, r) && Get(w, r).dir ensures NoHoles(w, r, 0, Blocks(Get(w, r))) {
      GrownLive(t, d, r);
      assert Live(t, r);
      if r != d { assert NoHoles(t, r, 0, Blocks(Get(t, r))); } else { assert NoHoles(t, d, 0, n); }
    }
  }

  lemma GrownIntoHoles(t: Tree, d: Ref)
    requires Inv(t) && Live(t, d) && CanGrow(t, d) && HoleFree(t) && Get(t, d).dir && Blocks(Get(t, d)) < MAXBLOCKS
    requires Blocks(Get(t, d)) !in Get(t, d).blocks
    ensures HoleFree(GetBlock(Grow(t, d), d, Blocks(Get(t, d))).0) <==> !Revives(t, d)
  {
    var n := Blocks(Get(t, d));
    GrowBlock(t, d);
    var (w, e, b) := GetBlock(Grow(t, d), d, n);
    if Revives(t, d) {
      var j :| 0 <= j < FILE2BLK && Ghostly(t, Slot(b, j));
      RevivedHole(t, d, j);
    } else {
      forall r | Live(w, r) && Get(w, r).dir ensures NoHoles(w, r, 0, Blocks(Get(w, r))) {
        GrownLive(t, d, r);
        if r == d {
          assert NoHoles(t, d, 0, n);
        } else if Live(t, r) {
          assert NoHoles(t, r, 0, Blocks(Get(t, r)));
        } else {
          assert !Ghostly(t, Slot(b, r.j));
        }
      }
    }
  }

  lemma RevivedHole(t: Tree, d: Ref, j: nat)
    requires Inv(t) && Live(t, d) && CanGrow(t, d) && Blocks(Get(t, d)) !in Get(t, d).blocks && j < FILE2BLK
    requires Ghostly(t, Slot(Target(t, d, Blocks(Get(t, d))), j))
    ensures !HoleFree(GetBlock(Grow(t, d), d, Blocks(Get(t, d))).0)
  {
    GrowBlock(t, d);
    var (w, e, b) := GetBlock(Grow(t, d), d, Blocks(Get(t, d)));
    var r := Slot(b, j);
    GrownLive(t, d, r);
    GrownSlots(t, d, r);
    FreeNoBlocks(t, b, j);
    assert Live(w, r) && Get(w, r).dir && 0 !in Get(w, r).blocks;
    assert !NoHoles(w, r, 0, Blocks(Get(w, r)));
  }

  lemma FreeNoBlocks(t: Tree, b: nat, j: nat)
    requires Inv(t) && b in t.free && Valid(t, Slot(b, j))
    ensures Get(t, Slot(b, j)).blocks == map[]
  {
    var k :| 0 <= k < |t.free| && t.free[k] == b;
    assert FreeOk(t, t.free[k]);
  }

  /** A block can be had for index i: it is there, or as many blocks are free, each still in memory
      or with a page to be had, as the file needs for it; and the pointer is not a left-over one. */
  predicate CanHave(t: Tree, r: Ref, i: nat)
    requires Valid(t, r)
  {
    && i < MAXBLOCKS
    && (i in Get(t, r).blocks
        || (&& i !in Get(t, r).stray && Ready(t, 0)
            && (NeedsInd(Get(t, r), i) ==> Ready(t, 1) && i !in Words(t, t.free[0]))))
  }

  predicate Ready(t: Tree, k: nat) { k < |t.free| && (t.free[k] in t.cached || t.free[k] !in t.nopage) }

  lemma CanHaveIff(t: Tree, r: Ref, i: nat)
    requires Valid(t, r)
    ensures Why(t, r, i) == Ok <==> CanHave(t, r, i)
  {}

  /** dir_alloc_file finds no slot and can have no block for one. */
  ghost predicate Full(t: Tree, d: Ref)
    requires Inv(t) && Valid(t, d)
  {
    !HasUnused(t, d) && !CanHave(t, d, Blocks(Get(t, d)))
  }

  /** What it then leaves: the directory one block longer, with the indirect block if it got one. */
  function Short(t: Tree, d: Ref): Tree
    requires Valid(t, d)
  {
    Left(Grow(t, d), d, Blocks(Get(t, d)))
  }

  /** What dir_alloc_file comes to in a directory without holes. */
  lemma DirAllocCases(t: Tree, d: Ref)
    requires Inv(t) && Live(t, d) && NoHoles(t, d, 0, Blocks(Get(t, d)))
    ensures DirAlloc(t, d).1 == Ok <==> !Full(t, d)
    ensures Full(t, d) ==> DirAlloc(t, d).0 == Short(t, d) && DirAlloc(t, d).1 == Why(t, d, Blocks(Get(t, d)))
  {
    var n := Blocks(Get(t, d));
    SearchNoHoles(t, d, "", 0, n);
    SearchUnused(t, d, 0, n);
    GrowCases(t, d, n);
    CanHaveIff(t, d, n);
    hide Inv, Find, GetBlock, SearchFrom, Grow, Get, CanHave, Why, Left;
  }

  lemma ShortGets(t: Tree, d: Ref)
    requires Inv(t) && Live(t, d) && !CanHave(t, d, Blocks(Get(t, d)))
    ensures var v := Short(t, d); var n := Blocks(Get(t, d));
            && Inv(v) && Live(v, d) && Get(v, d).dir == Get(t, d).dir && Blocks(Get(v, d)) == n + 1
            && Get(v, d).blocks == Get(t, d).blocks && Extends(Grow(t, d), v)
            && Why(v, d, n) == Why(t, d, n) && Left(v, d, n) == v
  {
    var n := Blocks(Get(t, d));
    GrowInv(t, d);
    GrowGets(t, d, d);
    GrowCases(t, d, n);
    CanHaveIff(t, d, n);
    GetBlockInv(Grow(t, d), d, n);
    GetBlockSelf(Grow(t, d), d, n);
    GetBlockExtends(Grow(t, d), d, n);
    ShortAgain(t, d);
    hide Inv, GetBlock, Extends, Grow, Why, Left, CanHave;
  }

  /** Asking for the block again ends the same way. */
  lemma ShortAgain(t: Tree, d: Ref)
    requires Valid(t, d) && !CanHave(t, d, Blocks(Get(t, d)))
    ensures var v := Short(t, d); var n := Blocks(Get(t, d));
            Valid(v, d) && Why(v, d, n) == Why(t, d, n) && Left(v, d, n) == v
  {
    GrowGets(t, d, d);
    if t.free != [] { TakeGets(Grow(t, d), d, d); }
  }

  /** A directory that has grown without its block has a hole. */
  lemma FullGrows(t: Tree, d: Ref)
    requires Inv(t) && Live(t, d) && Get(t, d).dir && Full(t, d)
    ensures Inv(Short(t, d)) && !HoleFree(Short(t, d))
  {
    ShortGets(t, d);
    CanHaveIff(t, d, Blocks(Get(t, d)));
    var u := Short(t, d);
    assert !NoHoles(u, d, 0, Blocks(Get(u, d)));
    hide Inv, Short, Extends, HasUnused;
  }

  /** The path's last component alone is missing, in directory pdir. */
  predicate Missing(w: Walked) { w.res == NotFound && w.pdir.Some? && w.last.Some? }

  /** When file_create fails. In a tree without holes it succeeds exactly if only the last component
      is missing and its directory has, or can get, an unused slot. Failing for want of a slot, it
      reports walk_path's -E_NOT_FOUND and leaves the directory one block longer without that block,
      but with the indirect block if that was had; failing otherwise it changes nothing. */
  lemma CreateFails(t: Tree, path: string)
    requires Inv(t) && HoleFree(t)
    ensures var w := Resolve(t, None, Root, Components(path));
            && (Missing(w) ==> Live(t, w.pdir.value))
            && (Create(t, path).1 == Ok <==> Missing(w) && !Full(t, w.pdir.value))
            && (Create(t, path).1 != Ok ==>
                  && Create(t, path).1 == (if w.res == Ok then Exists
                                           else if Missing(w) && Why(t, w.pdir.value, Blocks(Get(t, w.pdir.value))) == Stray then Stray
                                           else w.res)
                  && Create(t, path).0 == (if Missing(w) then Short(t, w.pdir.value) else t))
  {
    var cs := Components(path);
    WalkNoHoles(t, None, Root, cs);
    var w := Resolve(t, None, Root, cs);
    if w.res == NotFound && w.pdir.Some? {
      ResolveMissing(t, None, Root, cs);
      assert NoHoles(t, w.pdir.value, 0, Blocks(Get(t, w.pdir.value)));
      DirAllocCases(t, w.pdir.value);
    }
    hide Inv, Resolve, WalkFrom, Rename, Short, DirAlloc, Full, Why;
  }

  /** A successful file_create names a slot the directory has, or grows the directory. */
  lemma CreateGrows(t: Tree, path: string)
    requires Inv(t) && HoleFree(t) && Create(t, path).1 == Ok
    ensures Missing(Resolve(t, None, Root, Components(path)))
    ensures var w := Resolve(t, None, Root, Components(path));
            var d := w.pdir.value;
            && Live(t, d) && Get(t, d).dir
            && (HasUnused(t, d) ==> DirAlloc(t, d).0 == t && Valid(t, DirAlloc(t, d).2)
                                    && Create(t, path).0 == Rename(t, DirAlloc(t, d).2, w.last.value))
            && (!HasUnused(t, d) ==>
                  && CanGrow(t, d) && Blocks(Get(t, d)) < MAXBLOCKS
                  && Valid(GetBlock(Grow(t, d), d, Blocks(Get(t, d))).0, Slot(GetBlock(Grow(t, d), d, Blocks(Get(t, d))).2, 0))
                  && Create(t, path).0 == Grown(t, d, w.last.value))
  {
    var cs := Components(path);
    CreateFails(t, path);
    WalkNoHoles(t, None, Root, cs);
    var w := Resolve(t, None, Root, cs);
    ResolveMissing(t, None, Root, cs);
    var d := w.pdir.value;
    var n := Blocks(Get(t, d));
    assert NoHoles(t, d, 0, n);
    SearchNoHoles(t, d, "", 0, n);
    SearchUnused(t, d, 0, n);
    DirAllocLive(t, d);
    if !HasUnused(t, d) {
      GrowCases(t, d, n);
      CanHaveIff(t, d, n);
      GrowBlock(t, d);
    }
    hide Inv, Resolve, WalkFrom, SearchFrom, GetBlock, Grow, Find, Why;
  }

  /** file_create leaves a tree without holes without holes, exactly if it does not fail for want of
      a slot and does not grow into a block that brings a directory back. */
  lemma CreateHoles(t: Tree, path: string)
    requires Inv(t) && HoleFree(t)
    ensures var w := Resolve(t, None, Root, Components(path));
            && (Missing(w) ==> Live(t, w.pdir.value))
            && (HoleFree(Create(t, path).0)
                <==> (Missing(w) ==> HasUnused(t, w.pdir.value)
                                     || (!Full(t, w.pdir.value) && !Revives(t, w.pdir.value))))
  {
    CreateFails(t, path);
    var w := Resolve(t, None, Root, Components(path));
    if Missing(w) {
      var d := w.pdir.value;
      ResolveMissing(t, None, Root, Components(path));
      if Create(t, path).1 == Ok {
        CreateGrows(t, path);
        hide Inv, Resolve, Create, Full, HoleFree, Rename, Grown, Revives, GetBlock;
        if HasUnused(t, d) { RenameHoleFree(t, DirAlloc(t, d).2, w.last.value); } else { GrownHoleFree(t, d, w.last.value); }
      } else {
        hide Inv, Resolve, Create, HoleFree, CanHave;
        FullGrows(t, d);
      }
    }
  }

  /** Once it has failed like that, every lookup in the directory of a name that is not there stops
      at the hole, with the code of the block that could not be had, instead of not found. */
  lemma FullStops(t: Tree, d: Ref, nm: string)
    requires Inv(t) && Live(t, d) && NoHoles(t, d, 0, Blocks(Get(t, d))) && Full(t, d) && Entry(t, d, nm) == None
    ensures Inv(Short(t, d)) && Live(Short(t, d), d)
    ensures DirLookup(Short(t, d), d, nm) == (Short(t, d), Why(t, d, Blocks(Get(t, d))), Root)
  {
    var n := Blocks(Get(t, d));
    ShortGets(t, d);
    CanHaveIff(t, d, n);
    GrowInv(t, d);
    GrowFind(t, d, d, nm, 0, n);
    GrowGets(t, d, d);
    FindSame(Grow(t, d), Short(t, d), d, nm, 0, n);
    hide Inv, Find, Grow, Full, SearchFrom, Live, Short, Why, Extends, Left;
    SearchStops(Short(t, d), d, nm, 0, n);
  }

  lemma {:induction false} SearchStops(t: Tree, r: Ref, name: string, i: nat, n: nat)
    requires Inv(t) && Live(t, r) && Valid(t, r) && NoHoles(t, r, i, n)
    requires i <= n && Find(t, r, name, i, n) == None && Why(t, r, n) != Ok && Left(t, r, n) == t
    ensures SearchFrom(t, r, name, i, n + 1) == (t, Why(t, r, n), Root)
    decreases n - i
  {
    hide *;
    SearchRound(t, r, name, i, n + 1);
    if i == n {
      GetBlockCases(t, r, n);
    } else {
      PresentBlock(t, r, i, n);
      FindRound(t, r, name, i, n);
      SearchStops(t, r, name, i + 1, n);
    }
  }

  // ---------- walking to what was created ----------

  /** The directories there were have no holes. */
  ghost predicate StillHoleFree(t: Tree, u: Tree) {
    forall r :: Live(t, r) && Get(t, r).dir ==> Live(u, r) && NoHoles(u, r, 0, Blocks(Get(u, r)))
  }

  lemma CreateKeepsOld(t: Tree, path: string)
    requires Inv(t) && HoleFree(t) && Create(t, path).1 == Ok
    ensures StillHoleFree(t, Create(t, path).0)
  {
    CreateGrows(t, path);
    var w := Resolve(t, None, Root, Components(path));
    var d, name := w.pdir.value, w.last.value;
    var u := Create(t, path).0;
    hide Inv, Resolve, Create, Full, Grown;
    forall r | Live(t, r) && Get(t, r).dir ensures Live(u, r) && NoHoles(u, r, 0, Blocks(Get(u, r))) {
      assert NoHoles(t, r, 0, Blocks(Get(t, r)));
      if HasUnused(t, d) { RenameGets(t, DirAlloc(t, d).2, name, r); } else { GrownKeepsOld(t, d, name, r); }
    }
  }

  lemma GrownKeepsOld(t: Tree, d: Ref, name: string, r: Ref)
    requires Inv(t) && Live(t, d) && CanGrow(t, d) && Blocks(Get(t, d)) < MAXBLOCKS
    requires Live(t, r) && NoHoles(t, r, 0, Blocks(Get(t, r)))
    ensures var (w, e, b) := GetBlock(Grow(t, d), d, Blocks(Get(t, d)));
            && Valid(w, Slot(b, 0))
            && var u := Grown(t, d, name); Live(u, r) && NoHoles(u, r, 0, Blocks(Get(u, r)))
  {
    var n := Blocks(Get(t, d));
    GrowBlock(t, d);
    GrownLive(t, d, r);
    var (w, e, b) := GetBlock(Grow(t, d), d, n);
    RenameGets(w, Slot(b, 0), name, r);
    hide Inv, GetBlock, Grow, Extends;
  }

  lemma {:induction false} WalkAdds(t: Tree, u: Tree, d: Ref, name: string, q: Ref,
                                    dir: Option<Ref>, file: Ref, cs: seq<string>)
    requires Adds(t, u, d, name, q) && StillHoleFree(t, u) && Live(t, file) && Live(u, file) && AllNamed(cs)
    requires Resolve(t, dir, file, cs) == Walked(NotFound, Some(d), None, Some(name))
    ensures WalkFrom(u, dir, file, cs) == (u, Walked(Ok, Some(d), Some(q), None))
    decreases |cs|
  {
    var e := Entry(t, file, cs[0]);
    assert Keeps(t, u, file, cs[0]);
    assert NoHoles(u, file, 0, Blocks(Get(u, file)));
    WalkStep(u, dir, file, cs);
    LookupFinds(u, file, cs[0]);
    if e.Some? {
      EntryValid(t, file, cs[0]);
      hide DirLookup, Adds, StillHoleFree, Entry;
      WalkAdds(t, u, d, name, q, Some(file), e.value, cs[1..]);
    } else {
      assert WalkFrom(u, Some(d), q, cs[1..]) == (u, Walked(Ok, Some(d), Some(q), None));
    }
  }

  /** So walk_path(path) then finds exactly that file, in that directory, and changes nothing. */
  lemma CreateThenWalk(t: Tree, path: string)
    requires Inv(t) && HoleFree(t) && Create(t, path).1 == Ok
    ensures var (u, e, q) := Create(t, path);
            Inv(u) && WalkFrom(u, None, Root, Components(path))
                      == (u, Walked(Ok, Resolve(t, None, Root, Components(path)).pdir, Some(q), None))
  {
    var cs := Components(path);
    CreateFinds(t, path);
    CreateKeepsOld(t, path);
    WalkNoHoles(t, None, Root, cs);
    ResolveMissing(t, None, Root, cs);
    var w := Resolve(t, None, Root, cs);
    assert Live(Create(t, path).0, Root);
    assert w == Walked(NotFound, w.pdir, None, w.last);
    hide Inv, Create, Resolve, Adds, StillHoleFree, WalkFrom;
    WalkAdds(t, Create(t, path).0, w.pdir.value, w.last.value, Create(t, path).2, None, Root, cs);
  }

  // ---------- instances ----------

  lemma OneComponent(t: Tree, name: string)
    requires Inv(t) && t.root.dir && name != "" && '/' !in name && |name| < MAXNAMELEN && Entry(t, Root, name) == None
    ensures Resolve(t, None, Root, Components(name)) == Walked(NotFound, Some(Root), None, Some(name))
  {
    ComponentsWord(name);
  }

  function RootDir(size: nat, blocks: map<nat, nat>): Node { Node("/", true, size, blocks, false, {}) }

  function File(name: string): Node { Node(name, false, 0, map[], false, {}) }

  /** What file_create reports and leaves when the root directory is full, and what a walk to the same
      path reports afterwards. */
  lemma WalkStops(u: Tree, name: string, e: Code)
    requires Inv(u) && u.root.dir && |name| < MAXNAMELEN && DirLookup(u, Root, name) == (u, e, Root) && e != Ok && e != NotFound
    ensures WalkFrom(u, None, Root, [name]) == (u, Failed(e))
  {
    hide Inv, DirLookup;
  }

  lemma FullInstance(t: Tree, name: string)
    requires Inv(t) && HoleFree(t) && t.root.dir && name != "" && '/' !in name && |name| < MAXNAMELEN
    requires Entry(t, Root, name) == None && Full(t, Root) && Why(t, Root, Blocks(t.root)) != Stray
    ensures Create(t, name).0 == Short(t, Root) && Create(t, name).1 == NotFound
    ensures Inv(Short(t, Root)) && !HoleFree(Short(t, Root))
    ensures WalkFrom(Short(t, Root), None, Root, Components(name))
            == (Short(t, Root), Failed(Why(t, Root, Blocks(t.root))))
  {
    assert Get(t, Root).dir ==> NoHoles(t, Root, 0, Blocks(Get(t, Root)));
    CanHaveIff(t, Root, Blocks(t.root));
    hide *;
    OneComponent(t, name);
    CreateFails(t, name);
    FullGrows(t, Root);
    FullStops(t, Root, name);
    FullNeeds(t);
    ShortGets(t, Root);
    ComponentsWord(name);
    WalkStops(Short(t, Root), name, Why(t, Root, Blocks(t.root)));
  }

  lemma FullNeeds(t: Tree)
    requires Inv(t) && Full(t, Root)
    ensures !CanHave(t, Root, Blocks(t.root)) && Get(t, Root) == t.root && Live(t, Root)
    ensures Why(t, Root, Blocks(t.root)) != Ok && Why(t, Root, Blocks(t.root)) != NotFound
  {
    CanHaveIff(t, Root, Blocks(t.root));
    hide Inv, HasUnused;
  }

  /** An empty root directory and a full disk. */
  const FULL_DISK := Tree(RootDir(0, map[]), [], [], map[], {}, {})

  lemma FullDiskInstance()
    ensures Inv(FULL_DISK) && HoleFree(FULL_DISK)
    ensures Create(FULL_DISK, "a").1 == NotFound && Create(FULL_DISK, "a").0 == Grow(FULL_DISK, Root)
    ensures Inv(Grow(FULL_DISK, Root)) && !HoleFree(Grow(FULL_DISK, Root))
    ensures WalkFrom(Grow(FULL_DISK, Root), None, Root, Components("a")) == (Grow(FULL_DISK, Root), Failed(NoDisk))
  {
    var t := FULL_DISK;
    assert forall r :: Valid(t, r) ==> r == Root;
    FullInstance(t, "a");
  }

  /** An empty root directory and one free block, not in memory, for which there is no page. */
  const NO_PAGE := Tree(RootDir(0, map[]), [seq(16, _ => UNUSED)], [0], map[], {0}, {})

  lemma NoPageInstance()
    ensures Inv(NO_PAGE) && HoleFree(NO_PAGE)
    ensures Create(NO_PAGE, "a").1 == NotFound && Create(NO_PAGE, "a").0 == Grow(NO_PAGE, Root)
    ensures Inv(Grow(NO_PAGE, Root)) && !HoleFree(Grow(NO_PAGE, Root))
    ensures WalkFrom(Grow(NO_PAGE, Root), None, Root, Components("a")) == (Grow(NO_PAGE, Root), Failed(NoMem))
  {
    var t := NO_PAGE;
    assert |t.slots| == 1 && |t.slots[0]| == FILE2BLK;
    assert forall r :: Valid(t, r) && r != Root ==> Get(t, r) == UNUSED;
    FullInstance(t, "a");
  }

  /** The first n blocks at the first n indices. */
  function Upto(n: nat): (m: map<nat, nat>)
    ensures forall i: nat :: i in m <==> i < n
    ensures forall i: nat :: i in m ==> m[i] == i
  {
    if n == 0 then map[] else Upto(n - 1)[n - 1 := n - 1]
  }

  function Named(b: nat): (s: seq<Node>)
    ensures |s| == FILE2BLK && forall j :: 0 <= j < FILE2BLK ==> s[j] == if b < 10 then File("x") else UNUSED
  {
    seq(FILE2BLK, _ => if b < 10 then File("x") else UNUSED)
  }

  /** A root directory of ten blocks with all its 160 slots named, and one free block. */
  function TenBlocks(): (t: Tree)
    ensures t.root == RootDir(10 * BY2BLK, Upto(10)) && t.free == [10] && t.cached == map[] && t.nopage == t.inds == {}
    ensures |t.slots| == 11 && forall b :: 0 <= b < 11 ==> t.slots[b] == Named(b)
  {
    Tree(RootDir(10 * BY2BLK, Upto(10)), seq(11, b requires b >= 0 => Named(b)), [10], map[], {}, {})
  }

  lemma TenBlocksInv()
    ensures var t := TenBlocks(); Inv(t) && HoleFree(t)
  {
    hide TenBlocks, Upto;
    var t := TenBlocks();
    forall r | Valid(t, r) && r != Root ensures Get(t, r).blocks == map[] && !Get(t, r).dir {
      assert t.slots[r.b] == Named(r.b);
    }
    assert FreeOk(t, 10) by { assert t.slots[10] == Named(10); }
  }

  lemma {:induction false} TenBlocksFind(name: string, i: nat)
    requires i <= 10 && name != "x"
    ensures Inv(TenBlocks()) && Find(TenBlocks(), Root, name, i, 10) == None
    decreases 10 - i
  {
    TenBlocksInv();
    hide TenBlocks, Upto, Inv, Scan;
    var t := TenBlocks();
    if i < 10 {
      TenBlocksFind(name, i + 1);
      FindRound(t, Root, name, i, 10);
      assert t.slots[i] == Named(i);
      ScanHolds(t, i, name);
    }
  }

  /** There the free block becomes the indirect block, and none is left for the directory: file_create
      reports -E_NOT_FOUND although a block was free. */
  lemma TenBlocksInstance()
    ensures var t := TenBlocks();
            && Inv(t) && HoleFree(t) && Create(t, "a").1 == NotFound
            && var u := Create(t, "a").0;
               && Inv(u) && !HoleFree(u) && u.free == [] && u.root.ind && Blocks(u.root) == 11 && 10 !in u.root.blocks
               && WalkFrom(u, None, Root, Components("a")) == (u, Failed(NoDisk))
  {
    hide TenBlocks, Inv, Find, HoleFree, Create, WalkFrom, Short, CanHave, Why;
    var t := TenBlocks();
    TenBlocksInv();
    TenBlocksFind("", 0);
    TenBlocksFind("a", 0);
    TenBlocksShort();
    FullInstance(t, "a");
  }

  lemma TenBlocksShort()
    ensures var t := TenBlocks(); var u := Short(t, Root);
            && !CanHave(t, Root, 10) && Why(t, Root, 10) == NoDisk && Blocks(t.root) == 10
            && u.free == [] && u.root.ind && Blocks(u.root) == 11 && 10 !in u.root.blocks
  {
    hide TenBlocks, Upto;
  }

  const OLD_SLOTS := [UNUSED, File("old")] + seq(14, _ => UNUSED)

  /** A root directory truncated to one byte: file_truncate keeps its first block, which holds an
      entry "old", but the size no longer covers it. */
  const OLD_BLOCK := Tree(RootDir(1, map[0 := 0]), [OLD_SLOTS], [], map[], {}, {})

  /** An empty root directory; the one free block is still in memory with the entries of a directory
      that had it before. */
  const LEFT_OVER := Tree(RootDir(0, map[]), [OLD_SLOTS], [0], map[0 := {}], {}, {})

  lemma OldBlockInv(t: Tree)
    requires t == OLD_BLOCK || t == LEFT_OVER
    ensures Inv(t) && HoleFree(t)
  {
    assert |t.slots| == 1 && |t.slots[0]| == FILE2BLK;
    forall r | Valid(t, r) && r != Root ensures Get(t, r).blocks == map[] && Get(t, r).stray == {} && !Get(t, r).dir {}
  }

  lemma OldBlockEntries(t: Tree)
    requires t == OLD_BLOCK || t == LEFT_OVER
    ensures t.slots[0][1].name == "old" && Target(t, Root, 0) == 0 && CanHave(t, Root, 0)
    ensures Inv(t) && Entry(t, Root, "old") == Entry(t, Root, "new") == Entry(t, Root, "") == None
  {
    OldBlockInv(t);
    hide Inv;
  }

  /** In both "old" is not to be found until file_create("new") grows the directory over the block. */
  lemma OldEntryReturns(t: Tree)
    requires t == OLD_BLOCK || t == LEFT_OVER
    ensures Inv(t) && HoleFree(t) && Entry(t, Root, "old") == None
    ensures Create(t, "new").1 == Ok && Inv(Create(t, "new").0)
    ensures Entry(Create(t, "new").0, Root, "old").Some?
  {
    OldBlockInv(t);
    OldBlockEntries(t);
    hide Inv, HoleFree, Find, Create, Resolve, CanHave, Grown, GetBlock, Grow, Adds, AddsOnly;
    OneComponent(t, "new");
    CreateFails(t, "new");
    CreateFinds(t, "new");
    CreateGrows(t, "new");
    GrownOverEntry(t, Root, "new", "old");
  }

  /** A root directory with a hole, which is filled with a block left over: walk_path finds an entry
      that no directory had. */
  const STALE_HOLE := LEFT_OVER.(root := RootDir(BY2BLK, map[]))

  lemma StaleHoleInv()
    ensures var t := STALE_HOLE; Inv(t) && Live(t, Root) && Entry(t, Root, "old") == None
  {
    var t := STALE_HOLE;
    assert |t.slots| == 1 && |t.slots[0]| == FILE2BLK;
    assert forall r :: Valid(t, r) && r != Root ==> Get(t, r).blocks == map[] && !Get(t, r).dir;
  }

  lemma StaleHoleInstance()
    ensures Inv(STALE_HOLE) && Resolve(STALE_HOLE, None, Root, Components("old")).res == NotFound
    ensures WalkFrom(STALE_HOLE, None, Root, Components("old")).1 == Walked(Ok, Some(Root), Some(Slot(0, 1)), None)
  {
    var t := STALE_HOLE;
    StaleHoleInv();
    ComponentsWord("old");
    SearchRound(t, Root, "old", 0, 1);
    var u := GetBlock(t, Root, 0).0;
    assert u.slots[0][0].name == "" && u.slots[0][1].name == "old";
    assert Scan(u, 0, "old", 0) == 1;
    assert Components("old")[1..] == [];
    hide Inv, Find, Scan, GetBlock, SearchFrom;
    assert DirLookup(t, Root, "old") == (u, Ok, Slot(0, 1));
  }
}
