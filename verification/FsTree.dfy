/** Directories as trees of File structures: file_get_block and the search through the blocks of a
    directory (fs/fs.c), with free blocks that still hold what was in them. */
module FsTree {
  import opened Wrappers

  const BY2BLK: nat := 4096
  const FILE2BLK: nat := 16
  const MAXBLOCKS: nat := 1024      // file_block_walk refuses indices from here on
  const MAXNAMELEN: nat := 128
  const NDIRECT: nat := 10

  /** Where a File structure is: the super block's root, or slot j of a directory's block b. */
  datatype Ref = Root | Slot(b: nat, j: nat)

  /** A File structure. `blocks` maps the indices at which it has a block to the block, `ind` says
      whether f_indirect is set. `stray` are the indices at which the pointer is left over: read in
      a block that was in use before, as part of a File structure or as an indirect block. An
      unused slot has the empty name. */
  datatype Node = Node(name: string, dir: bool, size: nat, blocks: map<nat, nat>, ind: bool, stray: set<nat>)

  const UNUSED := Node("", false, 0, map[], false, {})

  /** slots[b] is what block b reads as a directory's, if it is free, then once it is allocated.
      `free` are the free blocks in the order in which alloc_block takes them, `cached` those still
      in memory, which map_block does not clear, each with the words from 10 on that are not zero in
      it; `nopage` those for which syscall_mem_alloc fails. `inds` are the blocks in use as indirect
      blocks. */
  datatype Tree = Tree(root: Node, slots: seq<seq<Node>>, free: seq<nat>, cached: map<nat, set<nat>>,
                       nopage: set<nat>, inds: set<nat>)

  /** Stray: a left-over pointer is followed. The server stops there if the block is free or beyond
      the disk, and otherwise goes on in a block that need not be the directory's. */
  datatype Code = Ok | NotFound | NoDisk | NoMem | Inval | BadPath | Exists | Stray

  predicate Valid(t: Tree, r: Ref) {
    r.Slot? ==> r.b < |t.slots| && r.j < |t.slots[r.b]|
  }

  function Get(t: Tree, r: Ref): Node
    requires Valid(t, r)
  {
    if r.Root? then t.root else t.slots[r.b][r.j]
  }

  function Set(t: Tree, r: Ref, n: Node): Tree
    requires Valid(t, r)
  {
    if r.Root? then t.(root := n) else t.(slots := t.slots[r.b := t.slots[r.b][r.j := n]])
  }

  function Blocks(n: Node): nat { n.size / BY2BLK }

  // ---------- the file system calls ----------

  /** What alloc_block returns when the first k free blocks are already taken. */
  function AllocCode(t: Tree, k: nat): Code {
    if k >= |t.free| then NoDisk
    else if t.free[k] in t.cached || t.free[k] !in t.nopage then Ok
    else NoMem
  }

  /** The words from 10 on that are not zero in block b when it is allocated. */
  function Words(t: Tree, b: nat): set<nat> { if b in t.cached then t.cached[b] else {} }

  predicate NeedsInd(n: Node, i: nat) { i >= NDIRECT && !n.ind }

  /** file_get_block, always allocating: a hole is filled with the next free block, and a file that
      needs an indirect block for it gets one first. */
  function GetBlock(t: Tree, r: Ref, i: nat): (Tree, Code, nat)
    requires Valid(t, r)
  {
    if i >= MAXBLOCKS then (t, Inval, 0)
    else if !NeedsInd(Get(t, r), i) then AtPointer(t, r, i)
    else if AllocCode(t, 0) != Ok then (t, AllocCode(t, 0), 0)
    else AtPointer(TakeInd(t, r), r, i)
  }

  /** With the place of the pointer there. */
  function AtPointer(t: Tree, r: Ref, i: nat): (Tree, Code, nat)
    requires Valid(t, r)
  {
    var n := Get(t, r);
    if i in n.blocks then (t, Ok, n.blocks[i])
    else if i in n.stray then (t, Stray, 0)
    else if AllocCode(t, 0) == Ok then (Fill(t, r, i), Ok, t.free[0])
    else (t, AllocCode(t, 0), 0)
  }

  function Fill(t: Tree, r: Ref, i: nat): Tree
    requires Valid(t, r) && t.free != []
  {
    var n := Get(t, r);
    Set(t.(free := t.free[1..]), r, n.(blocks := n.blocks[i := t.free[0]]))
  }

  /** The next free block becomes the indirect block; what is left in it are now pointers. */
  function TakeInd(t: Tree, r: Ref): (u: Tree)
    requires Valid(t, r) && t.free != []
    ensures Valid(u, r)
  {
    var n := Get(t, r);
    Set(t.(free := t.free[1..], inds := t.inds + {t.free[0]}), r, n.(ind := true, stray := n.stray + Words(t, t.free[0])))
  }

  /** The first slot of block b, from j on, with this name; FILE2BLK if there is none. */
  function Scan(t: Tree, b: nat, name: string, j: nat): (k: nat)
    requires b < |t.slots| && |t.slots[b]| == FILE2BLK && j <= FILE2BLK
    ensures j <= k <= FILE2BLK && (k < FILE2BLK ==> t.slots[b][k].name == name)
    ensures forall m :: j <= m < k ==> t.slots[b][m].name != name
    decreases FILE2BLK - j
  {
    if j == FILE2BLK || t.slots[b][j].name == name then j else Scan(t, b, name, j + 1)
  }

  /** The search that dir_lookup makes for a name and dir_alloc_file for an unused slot: the
      first slot with that name in blocks i to n - 1. */
  function SearchFrom(t: Tree, r: Ref, name: string, i: nat, n: nat): (Tree, Code, Ref)
    requires Inv(t) && Live(t, r)
    decreases n - i
  {
    if i >= n then (t, NotFound, Root)
    else
      GetBlockInv(t, r, i);
      var (t1, e, b) := GetBlock(t, r, i);
      if e != Ok then (t1, e, Root)
      else
        var k := Scan(t1, b, name, 0);
        if k < FILE2BLK then (t1, Ok, Slot(b, k)) else SearchFrom(t1, r, name, i + 1, n)
  }

  function DirLookup(t: Tree, r: Ref, name: string): (Tree, Code, Ref)
    requires Inv(t) && Live(t, r)
  {
    SearchFrom(t, r, name, 0, Blocks(Get(t, r)))
  }

  // ---------- well-formed trees ----------

  /** A free block may hold anything, with every pointer in it left over, if it is still in memory;
      otherwise it will read as zero. */
  predicate FreeOk(t: Tree, b: nat)
    requires b < |t.slots|
  {
    forall j :: 0 <= j < |t.slots[b]| ==> t.slots[b][j].blocks == map[] && (b !in t.cached ==> t.slots[b][j] == UNUSED)
  }

  /** Block i of r, if it has one, is on the disk, not free and no indirect block; a pointer beyond
      the direct ones needs an indirect block. */
  predicate BlockOk(t: Tree, r: Ref, i: nat)
    requires Valid(t, r)
  {
    var n := Get(t, r);
    && (i in n.blocks ==> n.blocks[i] < |t.slots| && InData(t, n.blocks[i]))
    && (i in n.blocks || i in n.stray ==> !NeedsInd(n, i))
  }

  predicate InData(t: Tree, b: nat) { b !in t.free && b !in t.inds }

  predicate BlocksDiffer(t: Tree, r: Ref, i: nat, q: Ref, k: nat)
    requires Valid(t, r) && Valid(t, q)
  {
    (r != q || i != k) && i in Get(t, r).blocks && k in Get(t, q).blocks ==>
      Get(t, r).blocks[i] != Get(t, q).blocks[k]
  }

  /** No block has two owners, left-over pointers apart. */
  ghost predicate Inv(t: Tree) {
    && (forall b :: 0 <= b < |t.slots| ==> |t.slots[b]| == FILE2BLK)
    && (forall k :: 0 <= k < |t.free| ==> t.free[k] < |t.slots| && FreeOk(t, t.free[k]) && t.free[k] !in t.inds)
    && (forall j, k :: 0 <= j < k < |t.free| ==> t.free[j] != t.free[k])
    && (forall r, i :: Valid(t, r) ==> BlockOk(t, r, i))
    && (forall r, i, q, k :: Valid(t, r) && Valid(t, q) ==> BlocksDiffer(t, r, i, q, k))
  }

  /** A structure that is neither in a free block nor in an indirect one. */
  predicate Live(t: Tree, r: Ref) { Valid(t, r) && (r.Slot? ==> InData(t, r.b)) }

  lemma TakeGets(t: Tree, r: Ref, q: Ref)
    requires Valid(t, r) && t.free != []
    ensures Valid(TakeInd(t, r), q) <==> Valid(t, q)
    ensures Valid(t, q) ==>
              Get(TakeInd(t, r), q)
              == if q == r then Get(t, r).(ind := true, stray := Get(t, r).stray + Words(t, t.free[0])) else Get(t, q)
  {}

  lemma FillGets(t: Tree, r: Ref, i: nat, q: Ref)
    requires Valid(t, r) && t.free != []
    ensures Valid(Fill(t, r, i), q) <==> Valid(t, q)
    ensures Valid(t, q) ==>
              Get(Fill(t, r, i), q)
              == if q == r then Get(t, r).(blocks := Get(t, r).blocks[i := t.free[0]]) else Get(t, q)
  {}

  /** The free blocks but the first, when a live structure changes. */
  lemma RestFree(t: Tree, r: Ref, inds: set<nat>, n: Node, k: nat)
    requires Inv(t) && Live(t, r) && 0 < k < |t.free|
    ensures var u := Set(t.(free := t.free[1..], inds := inds), r, n);
            u.free[k - 1] == t.free[k] && t.free[k] < |u.slots| && FreeOk(u, t.free[k])
  {
    var u := Set(t.(free := t.free[1..], inds := inds), r, n);
    assert FreeOk(t, t.free[k]);
    assert r.Slot? ==> t.free[k] != r.b;
    assert u.slots[t.free[k]] == t.slots[t.free[k]];
  }

  lemma TakeInv(t: Tree, r: Ref)
    requires Inv(t) && Live(t, r) && t.free != []
    ensures Inv(TakeInd(t, r)) && Live(TakeInd(t, r), r)
  {
    var u := TakeInd(t, r);
    forall k | 0 <= k < |u.free| ensures u.free[k] < |u.slots| && FreeOk(u, u.free[k]) && u.free[k] !in u.inds {
      RestFree(t, r, u.inds, Get(u, r), k + 1);
    }
    forall q, m | Valid(u, q) ensures BlockOk(u, q, m) {
      TakeGets(t, r, q);
      assert BlockOk(t, q, m);
    }
    forall q, m, p, k | Valid(u, q) && Valid(u, p) ensures BlocksDiffer(u, q, m, p, k) {
      TakeGets(t, r, q);
      TakeGets(t, r, p);
      assert BlocksDiffer(t, q, m, p, k);
    }
  }

  lemma FillInv(t: Tree, r: Ref, i: nat)
    requires Inv(t) && Live(t, r) && t.free != [] && i !in Get(t, r).blocks && !NeedsInd(Get(t, r), i)
    ensures Inv(Fill(t, r, i))
  {
    var u := Fill(t, r, i);
    forall k | 0 <= k < |u.free| ensures u.free[k] < |u.slots| && FreeOk(u, u.free[k]) && u.free[k] !in u.inds {
      RestFree(t, r, u.inds, Get(u, r), k + 1);
    }
    forall q, m | Valid(u, q) ensures BlockOk(u, q, m) {
      FillGets(t, r, i, q);
      assert BlockOk(t, q, m);
    }
    forall q, m, p, k | Valid(u, q) && Valid(u, p) ensures BlocksDiffer(u, q, m, p, k) {
      FillGets(t, r, i, q);
      FillGets(t, r, i, p);
      assert BlocksDiffer(t, q, m, p, k);
      assert BlockOk(t, q, m) && BlockOk(t, p, k);
    }
  }

  lemma AtPointerInv(t: Tree, r: Ref, i: nat)
    requires Inv(t) && Live(t, r) && !NeedsInd(Get(t, r), i)
    ensures var (u, e, b) := AtPointer(t, r, i);
            && Inv(u) && Live(u, r)
            && (e == Ok ==> b < |u.slots| && InData(u, b) && i in Get(u, r).blocks && Get(u, r).blocks[i] == b)
  {
    if i in Get(t, r).blocks {
      assert BlockOk(t, r, i);
    } else if AllocCode(t, 0) == Ok {
      FillInv(t, r, i);
      FillGets(t, r, i, r);
      assert BlockOk(Fill(t, r, i), r, i);
    }
  }

  lemma GetBlockInv(t: Tree, r: Ref, i: nat)
    requires Inv(t) && Live(t, r)
    ensures var (u, e, b) := GetBlock(t, r, i);
            && Inv(u) && Live(u, r)
            && (e == Ok ==>
                  && b < |u.slots| && |u.slots[b]| == FILE2BLK && InData(u, b)
                  && i in Get(u, r).blocks && Get(u, r).blocks[i] == b)
  {
    if NeedsInd(Get(t, r), i) {
      if AllocCode(t, 0) == Ok {
        TakeInv(t, r);
        TakeGets(t, r, r);
        AtPointerInv(TakeInd(t, r), r, i);
      }
    } else {
      AtPointerInv(t, r, i);
    }
    hide AtPointer, TakeInd;
  }

  /** What file_get_block comes to, and the block it gives. */
  function Why(t: Tree, r: Ref, i: nat): Code
    requires Valid(t, r)
  {
    var n := Get(t, r);
    if i >= MAXBLOCKS then Inval
    else if i in n.blocks then Ok
    else if i in n.stray then Stray
    else if !NeedsInd(n, i) || AllocCode(t, 0) != Ok then AllocCode(t, 0)
    else if i in Words(t, t.free[0]) then Stray
    else AllocCode(t, 1)
  }

  /** The block that file_get_block will give. */
  function Target(t: Tree, r: Ref, i: nat): nat
    requires Valid(t, r)
  {
    var n := Get(t, r);
    if i in n.blocks then n.blocks[i]
    else if NeedsInd(n, i) then (if |t.free| > 1 then t.free[1] else 0)
    else if t.free != [] then t.free[0] else 0
  }

  /** What a file_get_block that fails leaves: the file keeps an indirect block it got. */
  function Left(t: Tree, r: Ref, i: nat): Tree
    requires Valid(t, r)
  {
    var n := Get(t, r);
    if i < MAXBLOCKS && i !in n.blocks && i !in n.stray && NeedsInd(n, i) && AllocCode(t, 0) == Ok then TakeInd(t, r) else t
  }

  /** file_get_block, case by case. */
  lemma GetBlockCases(t: Tree, r: Ref, i: nat)
    requires Inv(t) && Valid(t, r)
    ensures var (u, e, b) := GetBlock(t, r, i);
            && e == Why(t, r, i)
            && (if e == Ok then b == Target(t, r, i) else u == Left(t, r, i))
  {
    assert BlockOk(t, r, i);
    if t.free != [] { TakeGets(t, r, r); }
  }

  lemma AtPointerOther(t: Tree, r: Ref, i: nat, q: Ref)
    requires Valid(t, r) && Valid(t, q)
    ensures var u := AtPointer(t, r, i).0;
            && |u.slots| == |t.slots| && u.cached == t.cached && u.nopage == t.nopage && u.inds == t.inds
            && (forall x <- u.free :: x in t.free)
            && Valid(u, q) && Valid(u, r) && (q != r ==> Get(u, q) == Get(t, q)) && Get(u, q).name == Get(t, q).name
  {
    if t.free != [] { FillGets(t, r, i, q); }
    hide Get, Valid;
  }

  /** Nobody else changes by it, and nothing comes to be free. */
  lemma GetBlockOther(t: Tree, r: Ref, i: nat, q: Ref)
    requires Valid(t, r) && Valid(t, q)
    ensures var u := GetBlock(t, r, i).0;
            && |u.slots| == |t.slots| && u.cached == t.cached && u.nopage == t.nopage
            && (forall x <- u.free :: x in t.free) && (forall x <- u.inds :: x in t.inds || x in t.free)
            && Valid(u, q) && Valid(u, r) && (q != r ==> Get(u, q) == Get(t, q)) && Get(u, q).name == Get(t, q).name
  {
    AtPointerOther(t, r, i, q);
    if t.free != [] {
      TakeGets(t, r, q);
      AtPointerOther(TakeInd(t, r), r, i, q);
      assert |TakeInd(t, r).slots| == |t.slots|;
    }
    hide Get, Valid, AtPointer, Words;
  }

  lemma AtPointerSelf(t: Tree, r: Ref, i: nat)
    requires Valid(t, r)
    ensures var (u, e, b) := AtPointer(t, r, i);
            && Valid(u, r)
            && Get(u, r) == (if e == Ok then Get(t, r).(blocks := Get(t, r).blocks[i := b]) else Get(t, r))
            && (if e == Ok && i !in Get(t, r).blocks then t.free != [] && b == t.free[0] && u.free == t.free[1..] && u.inds == t.inds
                else u == t)
  {
    if t.free != [] { FillGets(t, r, i, r); }
    hide Get, Valid, Set;
  }

  /** What r gains. */
  lemma GetBlockSelf(t: Tree, r: Ref, i: nat)
    requires Inv(t) && Valid(t, r)
    ensures var (u, e, b) := GetBlock(t, r, i);
            && Valid(u, r)
            && Get(u, r).name == Get(t, r).name && Get(u, r).dir == Get(t, r).dir && Get(u, r).size == Get(t, r).size
            && Get(u, r).blocks == (if e == Ok then Get(t, r).blocks[i := b] else Get(t, r).blocks)
            && (e == Ok && i !in Get(t, r).blocks ==>
                  && Get(u, r).ind == (i >= NDIRECT || Get(t, r).ind) && b in t.free
                  && |t.free| > (if NeedsInd(Get(t, r), i) then 1 else 0)
                  && b == t.free[if NeedsInd(Get(t, r), i) then 1 else 0]
                  && u.free == t.free[if NeedsInd(Get(t, r), i) then 2 else 1..]
                  && u.inds == t.inds + (if NeedsInd(Get(t, r), i) then {t.free[0]} else {}))
            && (e == Ok && i in Get(t, r).blocks ==> u == t)
  {
    assert BlockOk(t, r, i);
    AtPointerSelf(t, r, i);
    if NeedsInd(Get(t, r), i) && AllocCode(t, 0) == Ok {
      TakeGets(t, r, r);
      AtPointerSelf(TakeInd(t, r), r, i);
      assert TakeInd(t, r).free == t.free[1..] && TakeInd(t, r).inds == t.inds + {t.free[0]};
    }
    hide Inv, Get, Valid, AtPointer, Words, BlockOk, TakeInd;
  }

  // ---------- what a directory contains ----------

  /** The entry of a directory with this name, in blocks i to n - 1; holes hold no entries. */
  ghost function Find(t: Tree, r: Ref, name: string, i: nat, n: nat): Option<Ref>
    requires Inv(t) && Valid(t, r)
    decreases n - i
  {
    if i >= n then None
    else if i !in Get(t, r).blocks then Find(t, r, name, i + 1, n)
    else
      assert BlockOk(t, r, i);
      var b := Get(t, r).blocks[i];
      var k := Scan(t, b, name, 0);
      if k < FILE2BLK then Some(Slot(b, k)) else Find(t, r, name, i + 1, n)
  }

  ghost function Entry(t: Tree, r: Ref, name: string): Option<Ref>
    requires Inv(t) && Valid(t, r)
  {
    Find(t, r, name, 0, Blocks(Get(t, r)))
  }

  lemma FindRound(t: Tree, r: Ref, name: string, i: nat, n: nat)
    requires Inv(t) && Valid(t, r) && i < n && i in Get(t, r).blocks
    ensures var b := Get(t, r).blocks[i];
            && b < |t.slots| && |t.slots[b]| == FILE2BLK
            && Find(t, r, name, i, n)
               == (if Scan(t, b, name, 0) < FILE2BLK then Some(Slot(b, Scan(t, b, name, 0)))
                   else Find(t, r, name, i + 1, n))
  {
    assert BlockOk(t, r, i);
  }

  lemma {:induction false} FindValid(t: Tree, r: Ref, name: string, i: nat, n: nat)
    requires Inv(t) && Valid(t, r) && Find(t, r, name, i, n).Some?
    ensures var q := Find(t, r, name, i, n).value; q.Slot? && Live(t, q) && Get(t, q).name == name
    decreases n - i
  {
    if i < n {
      assert BlockOk(t, r, i);
      if i !in Get(t, r).blocks || Scan(t, Get(t, r).blocks[i], name, 0) == FILE2BLK { FindValid(t, r, name, i + 1, n); }
    }
  }

  lemma EntryValid(t: Tree, r: Ref, name: string)
    requires Inv(t) && Valid(t, r) && Entry(t, r, name).Some?
    ensures var q := Entry(t, r, name).value; q.Slot? && Live(t, q) && Get(t, q).name == name
  {
    FindValid(t, r, name, 0, Blocks(Get(t, r)));
  }

  // ---------- filling holes ----------

  predicate Kept(t: Tree, u: Tree, r: Ref)
    requires Valid(t, r)
  {
    && Valid(u, r)
    && Get(u, r).name == Get(t, r).name && Get(u, r).dir == Get(t, r).dir && Get(u, r).size == Get(t, r).size
    && forall i <- Get(t, r).blocks :: i in Get(u, r).blocks && Get(u, r).blocks[i] == Get(t, r).blocks[i]
  }

  /** A block that r gained was free. */
  predicate Gained(t: Tree, u: Tree, r: Ref)
    requires Valid(t, r) && Valid(u, r)
  {
    forall i <- Get(u, r).blocks :: i !in Get(t, r).blocks ==> Get(u, r).blocks[i] in t.free
  }

  /** u is t with some holes filled. */
  ghost predicate Extends(t: Tree, u: Tree) {
    && |u.slots| == |t.slots| && (forall b <- u.free :: b in t.free) && (forall b <- u.inds :: b in t.inds || b in t.free)
    && forall r :: Valid(t, r) ==> Kept(t, u, r) && Gained(t, u, r)
  }

  lemma ExtendsSelf(t: Tree)
    ensures Extends(t, t)
  {}

  lemma ExtendsTransitive(t: Tree, u: Tree, v: Tree)
    requires Extends(t, u) && Extends(u, v)
    ensures Extends(t, v)
  {
    forall r | Valid(t, r) ensures Kept(t, v, r) && Gained(t, v, r) {
      assert Kept(t, u, r) && Kept(u, v, r) && Gained(t, u, r) && Gained(u, v, r);
    }
  }

  lemma GetBlockExtends(t: Tree, r: Ref, i: nat)
    requires Inv(t) && Live(t, r)
    ensures var (u, e, b) := GetBlock(t, r, i);
            Inv(u) && Live(u, r) && Extends(t, u) && e in {Ok, NoDisk, NoMem, Inval, Stray}
  {
    GetBlockInv(t, r, i);
    GetBlockSelf(t, r, i);
    GetBlockCases(t, r, i);
    hide GetBlock;
    var u := GetBlock(t, r, i).0;
    GetBlockOther(t, r, i, r);
    forall q | Valid(t, q) ensures Kept(t, u, q) && Gained(t, u, q) { GetBlockOther(t, r, i, q); }
  }

  lemma {:induction false} ScanSame(t: Tree, u: Tree, b: nat, name: string, j: nat)
    requires Inv(t) && Inv(u) && |t.slots| == |u.slots| && b < |t.slots| && j <= FILE2BLK
    requires forall k :: j <= k < FILE2BLK ==> t.slots[b][k].name == u.slots[b][k].name
    ensures Scan(t, b, name, j) == Scan(u, b, name, j)
    decreases FILE2BLK - j
  {
    if j < FILE2BLK { ScanSame(t, u, b, name, j + 1); }
  }

  lemma ScanKept(t: Tree, u: Tree, b: nat, name: string)
    requires Inv(t) && Inv(u) && Extends(t, u) && b < |t.slots|
    ensures Scan(t, b, name, 0) == Scan(u, b, name, 0)
  {
    forall k | 0 <= k < FILE2BLK ensures t.slots[b][k].name == u.slots[b][k].name { assert Kept(t, u, Slot(b, k)); }
    ScanSame(t, u, b, name, 0);
  }

  /** Some slot of block b has this name. */
  predicate Holds(t: Tree, b: nat, name: string) {
    b < |t.slots| && exists j :: 0 <= j < |t.slots[b]| && t.slots[b][j].name == name
  }

  lemma ScanHolds(t: Tree, b: nat, name: string)
    requires Inv(t) && b < |t.slots|
    ensures Scan(t, b, name, 0) < FILE2BLK <==> Holds(t, b, name)
  {
    var k := Scan(t, b, name, 0);
    if k < FILE2BLK { assert t.slots[b][k].name == name; }
  }

  /** Where the same indices have the same blocks, the same is found. */
  lemma {:induction false} FindSame(t: Tree, u: Tree, r: Ref, name: string, i: nat, n: nat)
    requires Inv(t) && Inv(u) && Extends(t, u) && Valid(t, r) && Valid(u, r)
    requires forall m :: i <= m < n && m in Get(u, r).blocks ==> m in Get(t, r).blocks
    ensures Find(u, r, name, i, n) == Find(t, r, name, i, n)
    decreases n - i
  {
    if i < n {
      FindSame(t, u, r, name, i + 1, n);
      assert Kept(t, u, r);
      if i in Get(t, r).blocks {
        FindRound(t, r, name, i, n);
        FindRound(u, r, name, i, n);
        ScanKept(t, u, Get(t, r).blocks[i], name);
        hide Inv, Extends, Find, Kept, Scan;
      }
    }
  }

  /** Filling holes with blocks that do not hold the name changes nothing about it. */
  lemma {:induction false} FindExtends(t: Tree, u: Tree, r: Ref, name: string, i: nat, n: nat)
    requires Inv(t) && Inv(u) && Extends(t, u) && Valid(t, r)
    requires forall b <- t.free :: !Holds(t, b, name)
    ensures Valid(u, r) && Find(u, r, name, i, n) == Find(t, r, name, i, n)
    decreases n - i
  {
    assert Kept(t, u, r) && Gained(t, u, r);
    if i < n {
      FindExtends(t, u, r, name, i + 1, n);
      assert BlockOk(t, r, i) && BlockOk(u, r, i);
      if i in Get(u, r).blocks {
        var b := Get(u, r).blocks[i];
        ScanKept(t, u, b, name);
        if i !in Get(t, r).blocks { ScanHolds(t, b, name); }
      }
    }
  }

  lemma EntryExtends(t: Tree, u: Tree, r: Ref, name: string)
    requires Inv(t) && Inv(u) && Extends(t, u) && Valid(t, r)
    requires forall b <- t.free :: !Holds(t, b, name)
    ensures Valid(u, r) && Entry(u, r, name) == Entry(t, r, name)
  {
    assert Kept(t, u, r);
    FindExtends(t, u, r, name, 0, Blocks(Get(t, r)));
  }

  /** The search for the name in blocks i to n - 1 comes to its end without meeting a hole. */
  ghost predicate Firm(t: Tree, r: Ref, name: string, i: nat, n: nat)
    requires Inv(t) && Valid(t, r)
    decreases n - i
  {
    i >= n || (i in Get(t, r).blocks && (BlockOk(t, r, i) ==> Holds(t, Get(t, r).blocks[i], name) || Firm(t, r, name, i + 1, n)))
  }

  lemma {:induction false} FirmExtends(t: Tree, u: Tree, r: Ref, name: string, i: nat, n: nat)
    requires Inv(t) && Inv(u) && Extends(t, u) && Valid(t, r) && Firm(t, r, name, i, n)
    ensures Valid(u, r) && Firm(u, r, name, i, n) && Find(u, r, name, i, n) == Find(t, r, name, i, n)
    decreases n - i
  {
    assert Kept(t, u, r);
    if i < n {
      assert BlockOk(t, r, i);
      var b := Get(t, r).blocks[i];
      FindRound(t, r, name, i, n);
      FindRound(u, r, name, i, n);
      ScanKept(t, u, b, name);
      ScanHolds(t, b, name);
      HoldsKept(t, u, b, name);
      hide Inv, Extends, Find, Kept, Scan, Holds, BlockOk;
      if !Holds(t, b, name) { FirmExtends(t, u, r, name, i + 1, n); }
    }
  }

  // ---------- dir_lookup finds the entry ----------

  /** All of blocks i to n - 1 are there. */
  predicate NoHoles(t: Tree, r: Ref, i: nat, n: nat)
    requires Valid(t, r)
  {
    n <= MAXBLOCKS && forall m :: i <= m < n ==> m in Get(t, r).blocks
  }

  /** One round of the search. */
  lemma SearchRound(t: Tree, r: Ref, name: string, i: nat, n: nat)
    requires Inv(t) && Live(t, r) && i < n
    ensures var (t1, e, b) := GetBlock(t, r, i);
            && Inv(t1) && Live(t1, r) && Extends(t, t1)
            && (e != Ok ==> SearchFrom(t, r, name, i, n) == (t1, e, Root) && e in {NoDisk, NoMem, Inval, Stray})
            && (e == Ok ==>
                  && b < |t1.slots| && |t1.slots[b]| == FILE2BLK && i in Get(t1, r).blocks && i < MAXBLOCKS
                  && Get(t1, r).blocks[i] == b
                  && SearchFrom(t, r, name, i, n)
                     == (if Scan(t1, b, name, 0) < FILE2BLK then (t1, Ok, Slot(b, Scan(t1, b, name, 0)))
                         else SearchFrom(t1, r, name, i + 1, n))
                  && (Scan(t1, b, name, 0) < FILE2BLK ==>
                        Live(t1, Slot(b, Scan(t1, b, name, 0))) && Get(t1, Slot(b, Scan(t1, b, name, 0))).name == name))
  {
    GetBlockInv(t, r, i);
    GetBlockExtends(t, r, i);
    hide GetBlock, Extends;
  }

  lemma {:induction false} SearchExtends(t: Tree, r: Ref, name: string, i: nat, n: nat)
    requires Inv(t) && Live(t, r)
    ensures var u := SearchFrom(t, r, name, i, n).0; Inv(u) && Live(u, r) && Extends(t, u)
    decreases n - i
  {
    if i >= n {
      ExtendsSelf(t);
    } else {
      SearchRound(t, r, name, i, n);
      hide *;
      var (t1, e, b) := GetBlock(t, r, i);
      if e == Ok && Scan(t1, b, name, 0) == FILE2BLK {
        SearchExtends(t1, r, name, i + 1, n);
        ExtendsTransitive(t, t1, SearchFrom(t1, r, name, i + 1, n).0);
      }
    }
  }

  lemma {:induction false} SearchHits(t: Tree, r: Ref, name: string, i: nat, n: nat)
    requires Inv(t) && Live(t, r)
    ensures var (u, e, q) := SearchFrom(t, r, name, i, n);
            e in {Ok, NotFound, NoDisk, NoMem, Inval, Stray}
            && (e == Ok ==> q.Slot? && Live(u, q) && Get(u, q).name == name)
    decreases n - i
  {
    if i < n {
      SearchRound(t, r, name, i, n);
      hide *;
      var (t1, e, b) := GetBlock(t, r, i);
      if e == Ok && Scan(t1, b, name, 0) == FILE2BLK { SearchHits(t1, r, name, i + 1, n); }
    }
  }

  /** dir_lookup returns the first entry with the name in the directory as it leaves it, and reports
      that there is none exactly when there is none, unless it met a hole it could not fill. */
  lemma {:induction false} SearchFinds(t: Tree, r: Ref, name: string, i: nat, n: nat)
    requires Inv(t) && Live(t, r)
    ensures var (u, e, q) := SearchFrom(t, r, name, i, n);
            && Inv(u) && Valid(u, r)
            && (e == Ok ==> Find(u, r, name, i, n) == Some(q) && Firm(u, r, name, i, n))
            && (e == NotFound ==> Find(u, r, name, i, n) == None && Firm(u, r, name, i, n))
    decreases n - i
  {
    if i < n {
      SearchRound(t, r, name, i, n);
      var (t1, e, b) := GetBlock(t, r, i);
      if e == Ok {
        FindRound(t1, r, name, i, n);
        ScanHolds(t1, b, name);
        if Scan(t1, b, name, 0) == FILE2BLK {
          SearchFinds(t1, r, name, i + 1, n);
          SearchExtends(t1, r, name, i + 1, n);
          FirmStep(t1, SearchFrom(t1, r, name, i + 1, n).0, r, name, i, n);
        }
        hide *;
      }
    }
  }

  lemma FirmStep(t: Tree, u: Tree, r: Ref, name: string, i: nat, n: nat)
    requires Inv(t) && Inv(u) && Extends(t, u) && Valid(t, r) && i < n && i in Get(t, r).blocks
    requires Get(t, r).blocks[i] < |t.slots| && !Holds(t, Get(t, r).blocks[i], name)
    ensures Valid(u, r) && Find(u, r, name, i, n) == Find(u, r, name, i + 1, n)
    ensures Firm(u, r, name, i, n) <==> Firm(u, r, name, i + 1, n)
  {
    assert Kept(t, u, r);
    FindRound(u, r, name, i, n);
    var b := Get(t, r).blocks[i];
    ScanKept(t, u, b, name);
    ScanHolds(t, b, name);
    ScanHolds(u, b, name);
    assert BlockOk(u, r, i);
  }

  lemma PresentBlock(t: Tree, r: Ref, i: nat, n: nat)
    requires Inv(t) && Valid(t, r) && NoHoles(t, r, i, n) && i < n
    ensures GetBlock(t, r, i).0 == t && GetBlock(t, r, i).1 == Ok && NoHoles(t, r, i + 1, n)
    ensures i in Get(t, r).blocks && GetBlock(t, r, i).2 == Get(t, r).blocks[i]
  {
    assert BlockOk(t, r, i);
  }

  lemma {:induction false} SearchNoHoles(t: Tree, r: Ref, name: string, i: nat, n: nat)
    requires Inv(t) && Live(t, r) && NoHoles(t, r, i, n)
    ensures var (u, e, q) := SearchFrom(t, r, name, i, n); u == t && e in {Ok, NotFound}
    decreases n - i
  {
    if i < n {
      SearchRound(t, r, name, i, n);
      PresentBlock(t, r, i, n);
      hide *;
      if Scan(t, GetBlock(t, r, i).2, name, 0) == FILE2BLK { SearchNoHoles(t, r, name, i + 1, n); }
    }
  }

  lemma LookupExtends(t: Tree, r: Ref, name: string)
    requires Inv(t) && Live(t, r)
    ensures var (u, e, q) := DirLookup(t, r, name);
            && Inv(u) && Extends(t, u) && e in {Ok, NotFound, NoDisk, NoMem, Inval, Stray}
            && (e == Ok ==> q.Slot? && Live(u, q) && Get(u, q).name == name)
  {
    SearchExtends(t, r, name, 0, Blocks(Get(t, r)));
    SearchHits(t, r, name, 0, Blocks(Get(t, r)));
  }

  lemma LookupFinds(t: Tree, r: Ref, name: string)
    requires Inv(t) && Live(t, r)
    ensures var (u, e, q) := DirLookup(t, r, name);
            && Inv(u) && Valid(u, r)
            && (e == Ok ==> Entry(u, r, name) == Some(q))
            && (e == NotFound ==> Entry(u, r, name) == None)
            && (e in {Ok, NotFound} ==> Firm(u, r, name, 0, Blocks(Get(u, r))))
            && (NoHoles(t, r, 0, Blocks(Get(t, r))) ==> u == t && e in {Ok, NotFound})
  {
    SearchExtends(t, r, name, 0, Blocks(Get(t, r)));
    assert Kept(t, DirLookup(t, r, name).0, r);
    SearchFinds(t, r, name, 0, Blocks(Get(t, r)));
    if NoHoles(t, r, 0, Blocks(Get(t, r))) { SearchNoHoles(t, r, name, 0, Blocks(Get(t, r))); }
  }

  // ---------- when the entry was there before ----------

  /** The indices from i to h - 1 without a block. */
  function Holes(t: Tree, r: Ref, i: nat, h: nat): nat
    requires Valid(t, r)
    decreases h - i
  {
    if i >= h then 0 else (if i in Get(t, r).blocks then 0 else 1) + Holes(t, r, i + 1, h)
  }

  /** Which free block a search from block i on puts into the hole h. */
  function Filler(t: Tree, r: Ref, i: nat, h: nat): nat
    requires Valid(t, r)
  {
    Holes(t, r, i, h) + if NeedsInd(Get(t, r), h) then 1 else 0
  }

  /** At the hole h, before any entry with the name, comes a block left over that holds it. */
  ghost predicate Masks(t: Tree, r: Ref, name: string, i: nat, n: nat, h: nat)
    requires Inv(t) && Valid(t, r)
  {
    && i <= h < n && h !in Get(t, r).blocks && Find(t, r, name, i, h) == None
    && Filler(t, r, i, h) < |t.free| && Holds(t, t.free[Filler(t, r, i, h)], name)
  }

  ghost predicate Masked(t: Tree, r: Ref, name: string, i: nat, n: nat)
    requires Inv(t) && Valid(t, r)
  {
    exists h: nat :: Masks(t, r, name, i, n, h)
  }

  /** The answer is that of the directory as it was. */
  ghost predicate AsBefore(t: Tree, r: Ref, name: string, i: nat, n: nat, e: Code, q: Ref)
    requires Inv(t) && Valid(t, r)
  {
    (e == Ok ==> Find(t, r, name, i, n) == Some(q)) && (e == NotFound ==> Find(t, r, name, i, n) == None)
  }

  lemma {:induction false} HolesSame(t: Tree, u: Tree, r: Ref, i: nat, h: nat)
    requires Valid(t, r) && Valid(u, r)
    requires forall m :: i <= m < h ==> (m in Get(t, r).blocks <==> m in Get(u, r).blocks)
    ensures Holes(t, r, i, h) == Holes(u, r, i, h)
    decreases h - i
  {
    if i < h { HolesSame(t, u, r, i + 1, h); }
  }

  /** A block that is there and does not hold the name shifts nothing. */
  lemma MasksPast(t: Tree, r: Ref, name: string, i: nat, n: nat, h: nat)
    requires Inv(t) && Valid(t, r) && i < n && i in Get(t, r).blocks
    requires Get(t, r).blocks[i] < |t.slots| && !Holds(t, Get(t, r).blocks[i], name)
    ensures Masks(t, r, name, i, n, h) <==> Masks(t, r, name, i + 1, n, h)
  {
    ScanHolds(t, Get(t, r).blocks[i], name);
    if i < h { FindRound(t, r, name, i, h); }
  }

  lemma FillerShift(t: Tree, u: Tree, r: Ref, i: nat, h: nat)
    requires Valid(t, r) && Valid(u, r) && i < h && i !in Get(t, r).blocks
    requires Get(u, r).blocks.Keys == Get(t, r).blocks.Keys + {i} && Get(u, r).ind == (i >= NDIRECT || Get(t, r).ind)
    ensures Filler(t, r, i, h) == Filler(u, r, i + 1, h) + if NeedsInd(Get(t, r), i) then 2 else 1
  {
    HolesSame(t, u, r, i + 1, h);
  }

  lemma FindShift(t: Tree, u: Tree, r: Ref, name: string, i: nat, h: nat)
    requires Inv(t) && Inv(u) && Extends(t, u) && Valid(t, r) && Valid(u, r) && i < h
    requires i !in Get(t, r).blocks && Get(u, r).blocks.Keys == Get(t, r).blocks.Keys + {i}
    ensures Find(u, r, name, i + 1, h) == Find(t, r, name, i, h)
  {
    assert Kept(t, u, r);
    FindSame(t, u, r, name, i + 1, h);
  }

  /** A hole that was filled: the next free blocks come to the same holes as before. */
  lemma MasksShift(t: Tree, r: Ref, name: string, i: nat, n: nat, h: nat)
    requires Inv(t) && Live(t, r) && i < n && i !in Get(t, r).blocks && GetBlock(t, r, i).1 == Ok && h > i
    ensures var u := GetBlock(t, r, i).0;
            Inv(u) && Valid(u, r) && (Masks(t, r, name, i, n, h) <==> Masks(u, r, name, i + 1, n, h))
  {
    hide GetBlock, Inv, Extends, Find, Filler, Holds, InData;
    GetBlockSelf(t, r, i);
    GetBlockExtends(t, r, i);
    var u := GetBlock(t, r, i).0;
    FillerShift(t, u, r, i, h);
    FindShift(t, u, r, name, i, h);
    var f, g := Filler(t, r, i, h), Filler(u, r, i + 1, h);
    if f < |t.free| {
      assert u.free[g] == t.free[f];
      HoldsKept(t, u, t.free[f], name);
    }
  }

  lemma HoldsKept(t: Tree, u: Tree, b: nat, name: string)
    requires Inv(t) && Inv(u) && Extends(t, u)
    ensures Holds(t, b, name) <==> Holds(u, b, name)
  {
    if b < |t.slots| {
      forall k | 0 <= k < FILE2BLK ensures t.slots[b][k].name == u.slots[b][k].name { assert Kept(t, u, Slot(b, k)); }
    }
  }

  lemma MaskedPast(t: Tree, r: Ref, name: string, i: nat, n: nat)
    requires Inv(t) && Valid(t, r) && i < n && i in Get(t, r).blocks
    requires Get(t, r).blocks[i] < |t.slots| && !Holds(t, Get(t, r).blocks[i], name)
    ensures Masked(t, r, name, i, n) <==> Masked(t, r, name, i + 1, n)
  {
    hide Inv, Holds, Masks, Valid, Get;
    if Masked(t, r, name, i, n) {
      var h: nat :| Masks(t, r, name, i, n, h);
      MasksPast(t, r, name, i, n, h);
    }
    if Masked(t, r, name, i + 1, n) {
      var h: nat :| Masks(t, r, name, i + 1, n, h);
      MasksPast(t, r, name, i, n, h);
    }
  }

  lemma PastSame(t: Tree, r: Ref, name: string, i: nat, n: nat, e: Code, q: Ref)
    requires Inv(t) && Valid(t, r) && i < n && i in Get(t, r).blocks
    requires Get(t, r).blocks[i] < |t.slots| && !Holds(t, Get(t, r).blocks[i], name)
    ensures AsBefore(t, r, name, i, n, e, q) <==> AsBefore(t, r, name, i + 1, n, e, q)
    ensures Masked(t, r, name, i, n) <==> Masked(t, r, name, i + 1, n)
  {
    ScanHolds(t, Get(t, r).blocks[i], name);
    FindRound(t, r, name, i, n);
    hide Inv, Find, Scan, Holds, Masked, Valid, Get;
    MaskedPast(t, r, name, i, n);
  }

  lemma MaskedShift(t: Tree, u: Tree, r: Ref, name: string, i: nat, n: nat)
    requires Inv(t) && Live(t, r) && i < n && i !in Get(t, r).blocks && GetBlock(t, r, i).1 == Ok && GetBlock(t, r, i).0 == u
    requires Inv(u) && Valid(u, r) && !Masks(t, r, name, i, n, i)
    ensures Masked(t, r, name, i, n) <==> Masked(u, r, name, i + 1, n)
  {
    forall h: nat | h <= i ensures (Masks(t, r, name, i, n, h) ==> h == i) && !Masks(u, r, name, i + 1, n, h) {}
    hide GetBlock, Inv, Masks, Valid, Get, Live;
    if Masked(t, r, name, i, n) {
      var h: nat :| Masks(t, r, name, i, n, h);
      MasksShift(t, r, name, i, n, h);
    }
    if Masked(u, r, name, i + 1, n) {
      var h: nat :| Masks(u, r, name, i + 1, n, h);
      MasksShift(t, r, name, i, n, h);
    }
  }

  lemma FilledSame(t: Tree, r: Ref, name: string, i: nat, n: nat, e: Code, q: Ref)
    requires Inv(t) && Live(t, r) && i < n && i !in Get(t, r).blocks && GetBlock(t, r, i).1 == Ok
    requires !Holds(t, GetBlock(t, r, i).2, name)
    ensures var u := GetBlock(t, r, i).0;
            && Inv(u) && Valid(u, r)
            && (AsBefore(t, r, name, i, n, e, q) <==> AsBefore(u, r, name, i + 1, n, e, q))
            && (Masked(t, r, name, i, n) <==> Masked(u, r, name, i + 1, n))
  {
    var u := GetBlock(t, r, i).0;
    GetBlockSelf(t, r, i);
    GetBlockExtends(t, r, i);
    FindSame(t, u, r, name, i + 1, n);
    assert !Masks(t, r, name, i, n, i);
    hide GetBlock, Extends, Holds, Inv, Masks, Masked, Get, Live;
    MaskedShift(t, u, r, name, i, n);
  }

  lemma PresentHit(t: Tree, r: Ref, name: string, i: nat, n: nat)
    requires Inv(t) && Valid(t, r) && i < n && i in Get(t, r).blocks
    requires Get(t, r).blocks[i] < |t.slots| && Holds(t, Get(t, r).blocks[i], name)
    ensures Find(t, r, name, i, n) == Some(Slot(Get(t, r).blocks[i], Scan(t, Get(t, r).blocks[i], name, 0)))
    ensures !Masked(t, r, name, i, n)
  {
    ScanHolds(t, Get(t, r).blocks[i], name);
    FindRound(t, r, name, i, n);
    forall h: nat | h > i ensures Find(t, r, name, i, h).Some? { FindRound(t, r, name, i, h); }
  }

  lemma FilledHit(t: Tree, r: Ref, name: string, i: nat, n: nat, k: nat)
    requires Inv(t) && Live(t, r) && i < n && i !in Get(t, r).blocks && GetBlock(t, r, i).1 == Ok
    requires Holds(t, GetBlock(t, r, i).2, name)
    ensures Find(t, r, name, i, n) != Some(Slot(GetBlock(t, r, i).2, k)) && Masked(t, r, name, i, n)
  {
    GetBlockSelf(t, r, i);
    assert Masks(t, r, name, i, n, i);
    if Find(t, r, name, i, n).Some? { FindValid(t, r, name, i, n); }
    hide GetBlock, Find;
  }

  /** A search that ends gives the answer of the directory as it was, exactly if no block left over
      that holds the name comes into a hole before it. */
  lemma {:induction false} SearchAsBefore(t: Tree, r: Ref, name: string, i: nat, n: nat)
    requires Inv(t) && Live(t, r) && SearchFrom(t, r, name, i, n).1 in {Ok, NotFound}
    ensures var (u, e, q) := SearchFrom(t, r, name, i, n);
            AsBefore(t, r, name, i, n, e, q) <==> !Masked(t, r, name, i, n)
    decreases n - i
  {
    if i < n {
      hide GetBlock, SearchFrom, Scan, Holds, Find, Masked, Inv, Extends;
      var (t1, e, b) := GetBlock(t, r, i);
      var (u, f, q) := SearchFrom(t, r, name, i, n);
      SearchRound(t, r, name, i, n);
      GetBlockSelf(t, r, i);
      HoldsKept(t, t1, b, name);
      ScanHolds(t1, b, name);
      if i in Get(t, r).blocks {
        if Holds(t, b, name) {
          PresentHit(t, r, name, i, n);
        } else {
          PastSame(t, r, name, i, n, f, q);
          SearchAsBefore(t, r, name, i + 1, n);
        }
      } else if Holds(t, b, name) {
        FilledHit(t, r, name, i, n, q.j);
      } else {
        FilledSame(t, r, name, i, n, f, q);
        SearchAsBefore(t1, r, name, i + 1, n);
      }
    }
  }

// ---------- paths ----------
}
