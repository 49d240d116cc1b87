/** Blocks of the file system: the free bitmap, the map from a file's block indices to disk
    blocks through ten direct pointers and one indirect block, and truncation (fs/fs.c). */
module FsBlocks {
  const NDIRECT: nat := 10
  const NINDIRECT: nat := 1024
  const BY2BLK: nat := 4096
  const FIRST: nat := 3          // where alloc_block_num starts to search

  datatype File = File(size: nat, direct: seq<nat>, indirect: nat)

  /** free[b] is bit b of the bitmap; mapped[b] says whether block b is in memory; words[b] is
      what b holds, in memory if it is mapped and on the disk if not. */
  datatype Fs = Fs(free: seq<bool>, mapped: seq<bool>, words: seq<seq<nat>>, files: seq<File>)

  datatype Result = Block(b: nat) | NoDisk | NoMem | NotFound | Inval | Panic

  predicate WordsOk(w: seq<seq<nat>>) { forall b :: 0 <= b < |w| ==> |w[b]| == NINDIRECT }

  predicate FilesOk(fs: seq<File>) { forall f :: 0 <= f < |fs| ==> |fs[f].direct| == NDIRECT }

  predicate Shape(s: Fs) {
    |s.mapped| == |s.free| == |s.words| && WordsOk(s.words) && FilesOk(s.files)
  }

  function ZeroBlock(): (w: seq<nat>)
    ensures |w| == NINDIRECT && forall i :: 0 <= i < NINDIRECT ==> w[i] == 0
  {
    seq(NINDIRECT, i => 0)
  }

  // ---------- the bitmap ----------

  /** The lowest free block from b on, or the number of blocks. */
  function FirstFree(free: seq<bool>, b: nat): (r: nat)
    requires b <= |free|
    ensures b <= r <= |free| && (r < |free| ==> free[r]) && forall k :: b <= k < r ==> !free[k]
    decreases |free| - b
  {
    if b == |free| || free[b] then b else FirstFree(free, b + 1)
  }

  lemma FirstFreeIs(free: seq<bool>, from: nat, b: nat)
    requires from <= b <= |free| && (forall k :: from <= k < b ==> !free[k]) && (b < |free| ==> free[b])
    ensures FirstFree(free, from) == b
  {}

  function Lowest(s: Fs): (r: nat)
    ensures r < |s.free| ==> r >= FIRST && s.free[r]
  {
    if FIRST <= |s.free| then FirstFree(s.free, FIRST) else |s.free|
  }

  /** alloc_block: the lowest free block is taken and mapped; a block that is not in memory gets
      a zeroed page, one that still is keeps what it held. `noMem` says whether
      syscall_mem_alloc would fail; then the bit is set again. */
  function AllocBlock(s: Fs, noMem: bool): (Fs, Result)
    requires Shape(s)
  {
    var b := Lowest(s);
    if b >= |s.free| then (s, NoDisk)
    else if s.mapped[b] then (s.(free := s.free[b := false]), Block(b))
    else if noMem then (s, NoMem)
    else (Fs(s.free[b := false], s.mapped[b := true], s.words[b := ZeroBlock()], s.files), Block(b))
  }

  // ---------- the block map ----------

  /** Where a block pointer is kept. */
  datatype Loc = Ptr(f: nat, n: nat) | Ind(f: nat)

  predicate Valid(s: Fs, l: Loc) {
    l.f < |s.files| && (l.Ptr? ==> l.n < NINDIRECT)
  }

  /** The pointer at a location, zero for none. */
  function Val(s: Fs, l: Loc): nat
    requires Shape(s) && Valid(s, l)
  {
    var file := s.files[l.f];
    if l.Ind? then file.indirect
    else if l.n < NDIRECT then file.direct[l.n]
    else if file.indirect == 0 || file.indirect >= |s.words| then 0
    else s.words[file.indirect][l.n]
  }

  function Put(w: seq<nat>, n: nat, v: nat): seq<nat>
    requires n < |w|
  {
    w[n := v]
  }

  function SetPtr(s: Fs, f: nat, n: nat, v: nat): Fs
    requires Shape(s) && Valid(s, Ptr(f, n))
    requires n >= NDIRECT ==> 0 < s.files[f].indirect < |s.words|
  {
    var file := s.files[f];
    if n < NDIRECT then s.(files := s.files[f := file.(direct := Put(file.direct, n, v))])
    else s.(words := s.words[file.indirect := Put(s.words[file.indirect], n, v)])
  }

  /** read_block stops the server on a block that is free or beyond the disk. */
  function ReadBlock(s: Fs, b: nat): (Fs, bool)
    requires Shape(s)
  {
    if b >= |s.free| || s.free[b] then (s, false) else (s.(mapped := s.mapped[b := true]), true)
  }

  /** file_block_walk; Block(0) means that *ppdiskbno is set. */
  function Walk(s: Fs, f: nat, n: nat, alloc: bool, noMem: bool): (Fs, Result)
    requires Shape(s) && f < |s.files|
  {
    if n < NDIRECT then (s, Block(0))
    else if n >= NINDIRECT then (s, Inval)
    else if s.files[f].indirect != 0 then
      var (t, ok) := ReadBlock(s, s.files[f].indirect);
      (t, if ok then Block(0) else Panic)
    else if !alloc then (s, NotFound)
    else
      var (t, r) := AllocBlock(s, noMem);
      if !r.Block? then (t, r)
      else
        var u := t.(files := t.files[f := t.files[f].(indirect := r.b)]);
        var (v, ok) := ReadBlock(u, r.b);
        (v, if ok then Block(0) else Panic)
  }

  /** file_map_block; noMem0 and noMem1 are the two possible failures of map_block. */
  function MapBlock(s: Fs, f: nat, n: nat, alloc: bool, noMem0: bool, noMem1: bool): (Fs, Result)
    requires Shape(s) && f < |s.files|
  {
    var (t, w) := Walk(s, f, n, alloc, noMem0);
    if !w.Block? || !Pointed(t, f, n) then (t, w)
    else if Val(t, Ptr(f, n)) != 0 then (t, Block(Val(t, Ptr(f, n))))
    else if !alloc then (t, NotFound)
    else
      var (u, r) := AllocBlock(t, noMem1);
      if r.Block? && Pointed(u, f, n) then (SetPtr(u, f, n, r.b), r) else (u, r)
  }

  /** Index n of file f has a place for its pointer. */
  predicate Pointed(s: Fs, f: nat, n: nat) {
    Shape(s) && Valid(s, Ptr(f, n)) && (n >= NDIRECT ==> 0 < s.files[f].indirect < |s.words|)
  }

  /** file_clear_block. */
  function ClearBlock(s: Fs, f: nat, n: nat): (t: Fs)
    requires Shape(s) && f < |s.files|
    ensures Shape(t) && |t.files| == |s.files| && |t.free| == |s.free|
  {
    var (t, w) := Walk(s, f, n, false, false);
    if !w.Block? || !Pointed(t, f, n) then t
    else
      var b := Val(t, Ptr(f, n));
      if b == 0 || b >= |t.free| then t
      else SetPtr(t.(free := t.free[b := true]), f, n, 0)
  }

  /** Whatever blocks hold, a walk that succeeds has found a place for the pointer. */
  lemma WalkPoints(s: Fs, f: nat, n: nat, alloc: bool, noMem: bool)
    requires Shape(s) && f < |s.files|
    ensures Walk(s, f, n, alloc, noMem).1.Block? ==> Pointed(Walk(s, f, n, alloc, noMem).0, f, n)
  {
    hide FirstFree;
  }

  lemma AllocPoints(s: Fs, f: nat, n: nat, noMem: bool)
    requires Pointed(s, f, n)
    ensures Pointed(AllocBlock(s, noMem).0, f, n)
  {
    hide FirstFree;
  }

  // ---------- the invariant ----------

  predicate Held(s: Fs, l: Loc)
    requires Shape(s)
  {
    Valid(s, l) && Val(s, l) != 0
  }

  predicate InUse(s: Fs, l: Loc)
    requires Shape(s)
  {
    Held(s, l) ==> Val(s, l) < |s.free| && !s.free[Val(s, l)]
  }

  predicate Apart(s: Fs, l: Loc, m: Loc)
    requires Shape(s)
  {
    l != m && Held(s, l) && Held(s, m) ==> Val(s, l) != Val(s, m)
  }

  /** Every block a file reaches, data or indirect, is marked in use, and no two locations reach
      the same block. */
  ghost predicate Inv(s: Fs) {
    Shape(s) && (forall l :: InUse(s, l)) && (forall l, m :: Apart(s, l, m))
  }

  /** The words of an indirect block that file_block_walk uses are zero. */
  predicate Blank(w: seq<nat>) { |w| == NINDIRECT && forall m :: NDIRECT <= m < NINDIRECT ==> w[m] == 0 }

  /** A block that reads as zero behind the direct indices when it is allocated: not in memory, or
      zero there. */
  predicate ReadsZero(s: Fs, b: nat)
    requires Shape(s) && b < |s.free|
  {
    s.mapped[b] ==> Blank(s.words[b])
  }

  /** The call has to give file f an indirect block. */
  predicate NeedsIndirect(s: Fs, f: nat, n: nat, alloc: bool)
    requires Shape(s) && f < |s.files|
  {
    alloc && NDIRECT <= n < NINDIRECT && s.files[f].indirect == 0
  }

  predicate Fresh(s: Fs, f: nat, n: nat, alloc: bool)
    requires Shape(s) && f < |s.files|
  {
    NeedsIndirect(s, f, n, alloc) && Lowest(s) < |s.free| ==> ReadsZero(s, Lowest(s))
  }

  // ---------- small steps ----------

  /** Nothing but the bitmap loses a bit: a block is taken that nobody reaches. */
  lemma TakenIsUnheld(s: Fs, b: nat, l: Loc)
    requires Inv(s) && b < |s.free| && s.free[b] && Held(s, l)
    ensures Val(s, l) != b
  {
    assert InUse(s, l);
  }

  /** Allocation leaves every pointer alone: the block it zeroes was free, so it is nobody's
      indirect block. */
  lemma AllocVals(s: Fs, noMem: bool, l: Loc)
    requires Inv(s) && Valid(s, l)
    ensures Shape(AllocBlock(s, noMem).0) && Valid(AllocBlock(s, noMem).0, l)
    ensures Val(AllocBlock(s, noMem).0, l) == Val(s, l)
  {
    assert InUse(s, Ind(l.f));
  }

  lemma AllocInv(s: Fs, noMem: bool)
    requires Inv(s)
    ensures Inv(AllocBlock(s, noMem).0)
  {
    var t := AllocBlock(s, noMem).0;
    forall l | Valid(s, l) ensures Val(t, l) == Val(s, l) { AllocVals(s, noMem, l); }
    hide Val;
    forall l ensures InUse(t, l) {
      assert InUse(s, l);
      if Held(s, l) && Lowest(s) < |s.free| { TakenIsUnheld(s, Lowest(s), l); }
    }
    forall l, m ensures Apart(t, l, m) { assert Apart(s, l, m); }
  }

  /** alloc_block takes the lowest free block from 3 on, clears it only if it was not in memory, and fails
      without a trace: with no such block, or with no page for one that is not in memory. */
  lemma AllocAnswer(s: Fs, noMem: bool)
    requires Shape(s)
    ensures var (t, r) := AllocBlock(s, noMem);
            && (r == NoDisk <==> forall b :: 3 <= b < |s.free| ==> !s.free[b])
            && (forall b :: 3 <= b < |s.free| && s.free[b] && (forall k :: 3 <= k < b ==> !s.free[k]) ==>
                  r == if s.mapped[b] || !noMem then Block(b) else NoMem)
            && (!r.Block? ==> t == s)
            && (r.Block? ==> r.b < |s.free| && t.files == s.files && t.free == s.free[r.b := false]
                             && t.mapped == s.mapped[r.b := true]
                             && t.words == if s.mapped[r.b] then s.words else s.words[r.b := ZeroBlock()])
  {
    if Lowest(s) < |s.free| {
      forall b | 3 <= b < |s.free| && s.free[b] && forall k :: 3 <= k < b ==> !s.free[k] ensures b == Lowest(s) {
        if Lowest(s) < b { assert false; }
      }
    }
    hide ZeroBlock;
  }

  lemma AllocGives(s: Fs, noMem: bool, l: Loc)
    requires Inv(s) && AllocBlock(s, noMem).1.Block?
    ensures var (t, r) := AllocBlock(s, noMem);
            r.b != 0 && r.b < |t.free| && !t.free[r.b] && t.mapped[r.b] && t.free == s.free[r.b := false]
            && s.free[r.b] && (Held(s, l) ==> Val(s, l) != r.b)
  {
    if Held(s, l) { TakenIsUnheld(s, Lowest(s), l); }
  }

  /** Reading a block that is in use only brings it into memory. */
  lemma ReadVals(s: Fs, b: nat, l: Loc)
    requires Shape(s) && Valid(s, l)
    ensures Shape(ReadBlock(s, b).0) && Valid(ReadBlock(s, b).0, l)
    ensures Val(ReadBlock(s, b).0, l) == Val(s, l)
  {}

  lemma ReadInv(s: Fs, b: nat)
    requires Inv(s)
    ensures Inv(ReadBlock(s, b).0)
  {
    var t := ReadBlock(s, b).0;
    forall l | Valid(s, l) ensures Val(t, l) == Val(s, l) { ReadVals(s, b, l); }
    hide Val;
    forall l ensures InUse(t, l) { assert InUse(s, l); }
    forall l, m ensures Apart(t, l, m) { assert Apart(s, l, m); }
  }

  lemma ReadInUse(s: Fs, f: nat)
    requires Inv(s) && f < |s.files| && s.files[f].indirect != 0
    ensures ReadBlock(s, s.files[f].indirect).1
  {
    assert InUse(s, Ind(f));
  }

  /** Writing a pointer changes that pointer and no other: an indirect block is not shared. */
  lemma SetPtrVals(s: Fs, f: nat, n: nat, v: nat, l: Loc)
    requires Inv(s) && Pointed(s, f, n) && Valid(s, l)
    ensures Shape(SetPtr(s, f, n, v)) && Valid(SetPtr(s, f, n, v), l)
    ensures Val(SetPtr(s, f, n, v), l) == if l == Ptr(f, n) then v else Val(s, l)
  {
    assert Apart(s, Ind(f), Ind(l.f));
    assert Valid(s, Ind(f)) && Valid(s, Ind(l.f));
  }

  lemma SetPtrInv(s: Fs, f: nat, n: nat, v: nat)
    requires Inv(s) && Pointed(s, f, n)
    requires v == 0 || (v < |s.free| && !s.free[v] && forall l | Held(s, l) :: Val(s, l) != v)
    ensures Inv(SetPtr(s, f, n, v))
  {
    var t := SetPtr(s, f, n, v);
    SetPtrVals(s, f, n, v, Ptr(f, n));
    forall l | Valid(s, l) ensures Val(t, l) == if l == Ptr(f, n) then v else Val(s, l) { SetPtrVals(s, f, n, v, l); }
    hide Val;
    forall l ensures InUse(t, l) { assert InUse(s, l); }
    forall l, m ensures Apart(t, l, m) { assert Apart(s, l, m); }
  }

  /** A file gets an indirect block that reads as zero: no pointer appears. */
  lemma NewIndirectVals(s: Fs, f: nat, b: nat, l: Loc)
    requires Inv(s) && f < |s.files| && s.files[f].indirect == 0 && 0 < b < |s.words| && Valid(s, l)
    requires Blank(s.words[b])
    ensures var t := s.(files := s.files[f := s.files[f].(indirect := b)]);
            Shape(t) && Valid(t, l) && Val(t, l) == if l == Ind(f) then b else Val(s, l)
  {}

  lemma NewIndirectInv(s: Fs, f: nat, b: nat)
    requires Inv(s) && f < |s.files| && s.files[f].indirect == 0 && 0 < b < |s.words|
    requires Blank(s.words[b]) && !s.free[b] && forall l | Held(s, l) :: Val(s, l) != b
    ensures Inv(s.(files := s.files[f := s.files[f].(indirect := b)]))
  {
    var t := s.(files := s.files[f := s.files[f].(indirect := b)]);
    forall l | Valid(s, l) ensures Shape(t) && Valid(t, l) && Val(t, l) == if l == Ind(f) then b else Val(s, l) {
      NewIndirectVals(s, f, b, l);
    }
    hide Val;
    forall l ensures InUse(t, l) { assert InUse(s, l); }
    forall l, m ensures Apart(t, l, m) { assert Apart(s, l, m); }
  }

  // ---------- file_block_walk and file_map_block ----------

  /** The walk makes a place for the pointer, at most by giving f an indirect block, and changes
      no other pointer. */
  lemma WalkEffect(s: Fs, f: nat, n: nat, alloc: bool, noMem: bool, l: Loc)
    requires Inv(s) && f < |s.files| && Fresh(s, f, n, alloc)
    ensures var (t, w) := Walk(s, f, n, alloc, noMem);
            && Inv(t) && |t.files| == |s.files| && |t.free| == |s.free| && w != Panic
            && (w.Block? ==> Pointed(t, f, n))
            && (Valid(s, l) ==>
                  Valid(t, l) && (Val(t, l) == Val(s, l) || (l == Ind(f) && NeedsIndirect(s, f, n, alloc) && w.Block?)))
  {
    if NDIRECT <= n < NINDIRECT && s.files[f].indirect != 0 {
      ReadInv(s, s.files[f].indirect);
      ReadInUse(s, f);
      if Valid(s, l) { ReadVals(s, s.files[f].indirect, l); }
    } else if NeedsIndirect(s, f, n, alloc) {
      AllocInv(s, noMem);
      if Valid(s, l) { AllocVals(s, noMem, l); }
      if AllocBlock(s, noMem).1.Block? { WalkAllocates(s, f, n, noMem, l); }
    }
  }

  lemma WalkAllocates(s: Fs, f: nat, n: nat, noMem: bool, l: Loc)
    requires Inv(s) && f < |s.files| && NeedsIndirect(s, f, n, true) && Fresh(s, f, n, true)
    requires AllocBlock(s, noMem).1.Block?
    ensures var (t, w) := Walk(s, f, n, true, noMem);
            && Inv(t) && |t.files| == |s.files| && |t.free| == |s.free| && w == Block(0) && Pointed(t, f, n)
            && (Valid(s, l) ==> Valid(t, l) && Val(t, l) == if l == Ind(f) then t.files[f].indirect else Val(s, l))
            && t.free == s.free[t.files[f].indirect := false]
  {
    var (a, r) := AllocBlock(s, noMem);
    AllocInv(s, noMem);
    AllocGives(s, noMem, Ind(f));
    forall m | Held(a, m) ensures Val(a, m) != r.b {
      AllocVals(s, noMem, m);
      AllocGives(s, noMem, m);
    }
    NewIndirectInv(a, f, r.b);
    var u := a.(files := a.files[f := a.files[f].(indirect := r.b)]);
    ReadInv(u, r.b);
    if Valid(s, l) {
      AllocVals(s, noMem, l);
      NewIndirectVals(a, f, r.b, l);
      ReadVals(u, r.b, l);
    }
  }

  /** Which blocks a walk takes: none, or the one that became f's indirect block. */
  lemma WalkTakes(s: Fs, f: nat, n: nat, alloc: bool, noMem: bool)
    requires Inv(s) && f < |s.files| && Fresh(s, f, n, alloc)
    ensures var t := Walk(s, f, n, alloc, noMem).0;
            |t.files| == |s.files| && (t.free == s.free || t.free == s.free[t.files[f].indirect := false])
  {
    if NeedsIndirect(s, f, n, alloc) && AllocBlock(s, noMem).1.Block? { WalkAllocates(s, f, n, noMem, Ind(f)); }
  }

  lemma LinkEffect(t: Fs, f: nat, n: nat, noMem: bool, l: Loc)
    requires Inv(t) && Pointed(t, f, n) && Val(t, Ptr(f, n)) == 0
    ensures var (u, r) := AllocBlock(t, noMem);
            && Inv(u) && Pointed(u, f, n) && |u.files| == |t.files| && |u.free| == |t.free| && r != Panic
            && (Valid(t, l) ==> Valid(u, l) && Val(u, l) == Val(t, l))
    ensures var (u, r) := AllocBlock(t, noMem);
            r.Block? ==>
              && Inv(SetPtr(u, f, n, r.b)) && r.b != 0 && r.b < |t.free|
              && SetPtr(u, f, n, r.b).free == t.free[r.b := false] && |SetPtr(u, f, n, r.b).files| == |t.files|
              && (Valid(t, l) ==>
                    Valid(SetPtr(u, f, n, r.b), l)
                    && Val(SetPtr(u, f, n, r.b), l) == if l == Ptr(f, n) then r.b else Val(t, l))
  {
    var (u, r) := AllocBlock(t, noMem);
    AllocInv(t, noMem);
    AllocVals(t, noMem, Ptr(f, n));
    AllocVals(t, noMem, Ind(f));
    if Valid(t, l) { AllocVals(t, noMem, l); }
    if r.Block? {
      forall m | Held(u, m) ensures Val(u, m) != r.b {
        AllocVals(t, noMem, m);
        AllocGives(t, noMem, m);
      }
      AllocGives(t, noMem, Ind(f));
      SetPtrInv(u, f, n, r.b);
      if Valid(t, l) { SetPtrVals(u, f, n, r.b, l); }
    }
  }

  /** file_map_block keeps the block map free of aliases and never stops the server. It changes
      the addressed pointer and at most gives f an indirect block; every other pointer of every
      file is as before. On success the result is the block now at that index, the one that was
      there if there was one; on failure that pointer is unchanged. */
  lemma MapBlockEffect(s: Fs, f: nat, n: nat, alloc: bool, noMem0: bool, noMem1: bool, l: Loc)
    requires Inv(s) && f < |s.files| && Fresh(s, f, n, alloc)
    ensures var (t, r) := MapBlock(s, f, n, alloc, noMem0, noMem1);
            && Inv(t) && |t.files| == |s.files| && |t.free| == |s.free| && r != Panic
            && (r.Block? ==>
                  && Valid(t, Ptr(f, n)) && Valid(s, Ptr(f, n)) && r.b != 0 && Val(t, Ptr(f, n)) == r.b
                  && (Val(s, Ptr(f, n)) != 0 ==> r.b == Val(s, Ptr(f, n))))
            && (Valid(s, l) ==>
                  && Valid(t, l)
                  && (Val(t, l) == Val(s, l)
                      || (l == Ptr(f, n) && r.Block? && Val(s, l) == 0)
                      || (l == Ind(f) && NeedsIndirect(s, f, n, alloc))))
  {
    assert Shape(s);
    hide Inv, Val, AllocBlock, SetPtr, Walk;
    var (t, w) := Walk(s, f, n, alloc, noMem0);
    WalkEffect(s, f, n, alloc, noMem0, l);
    if w.Block? {
      WalkEffect(s, f, n, alloc, noMem0, Ptr(f, n));
      if Val(t, Ptr(f, n)) == 0 && alloc {
        LinkEffect(t, f, n, noMem1, l);
        LinkEffect(t, f, n, noMem1, Ptr(f, n));
      }
    }
  }

  /** file_map_block takes no block but those it links: no free block is lost, and none that was
      in use is freed. */
  lemma MapBlockTakes(s: Fs, f: nat, n: nat, alloc: bool, noMem0: bool, noMem1: bool, b: nat)
    requires Inv(s) && f < |s.files| && Fresh(s, f, n, alloc) && b < |s.free|
    ensures var t := MapBlock(s, f, n, alloc, noMem0, noMem1).0;
            && Inv(t) && |t.files| == |s.files| && |t.free| == |s.free|
            && (t.free[b] ==> s.free[b])
            && (s.free[b] && !t.free[b] ==>
                  (Valid(t, Ptr(f, n)) && b == Val(t, Ptr(f, n))) || b == t.files[f].indirect)
  {
    assert Shape(s);
    hide Inv, Val, SetPtr, Walk;
    MapBlockEffect(s, f, n, alloc, noMem0, noMem1, Ind(f));
    var (t, w) := Walk(s, f, n, alloc, noMem0);
    WalkTakes(s, f, n, alloc, noMem0);
    if w.Block? {
      WalkEffect(s, f, n, alloc, noMem0, Ptr(f, n));
      if Val(t, Ptr(f, n)) == 0 && alloc {
        LinkEffect(t, f, n, noMem1, Ptr(f, n));
        LinkEffect(t, f, n, noMem1, Ind(f));
        IndVal(t, f);
        IndVal(MapBlock(s, f, n, alloc, noMem0, noMem1).0, f);
      }
    }
  }

  lemma IndVal(s: Fs, f: nat)
    requires Shape(s) && f < |s.files|
    ensures Val(s, Ind(f)) == s.files[f].indirect
  {}

  // ---------- blocks that do not read as zero ----------

  /** What word m of the block that alloc_block picks reads once it is allocated. */
  function Stale(s: Fs, m: nat): nat
    requires Shape(s) && Lowest(s) < |s.free| && m < NINDIRECT
  {
    if s.mapped[Lowest(s)] then s.words[Lowest(s)][m] else 0
  }

  /** The state after a walk that gave file f the picked block as its indirect block. */
  lemma StaleWalk(s: Fs, f: nat, n: nat, l: Loc)
    requires Inv(s) && f < |s.files| && NeedsIndirect(s, f, n, true) && AllocBlock(s, false).1.Block?
    ensures var (t, w) := Walk(s, f, n, true, false);
            && w == Block(0) && Pointed(t, f, n) && Lowest(s) < |s.free| && t.files[f].indirect == Lowest(s)
            && t.free == s.free[Lowest(s) := false] && |t.files| == |s.files|
            && (Valid(s, l) ==>
                  && Valid(t, l)
                  && Val(t, l) == if l == Ind(f) then Lowest(s)
                                  else if l.f == f && l.Ptr? && l.n >= NDIRECT then Stale(s, l.n)
                                  else Val(s, l))
  {
    if Valid(s, l) {
      AllocVals(s, false, l);
      assert InUse(s, Ind(l.f));
      assert Valid(s, Ind(l.f));
    }
    hide FirstFree, Lowest, InUse, Apart;
  }

  /** The walk leaves every pointer but the new f_indirect as it was, exactly if the block it takes
      reads as zero. */
  lemma StaleIndirect(s: Fs, f: nat, n: nat)
    requires Inv(s) && f < |s.files| && NeedsIndirect(s, f, n, true) && AllocBlock(s, false).1.Block?
    ensures var t := Walk(s, f, n, true, false).0;
            Shape(t) && |t.files| == |s.files| && Lowest(s) < |s.free|
            && ((forall l :: Valid(s, l) && l != Ind(f) ==> Val(t, l) == Val(s, l)) <==> ReadsZero(s, Lowest(s)))
  {
    var t := Walk(s, f, n, true, false).0;
    StaleWalk(s, f, n, Ind(f));
    assert forall m: nat :: NDIRECT <= m < NINDIRECT ==> Valid(s, Ptr(f, m)) && Val(s, Ptr(f, m)) == 0;
    forall l | Valid(s, l)
      ensures Val(t, l) == if l == Ind(f) then Lowest(s)
                           else if l.f == f && l.Ptr? && l.n >= NDIRECT then Stale(s, l.n)
                           else Val(s, l)
    {
      StaleWalk(s, f, n, l);
    }
    hide Walk, Val, Lowest, AllocBlock;
    if !ReadsZero(s, Lowest(s)) {
      var m :| NDIRECT <= m < NINDIRECT && s.words[Lowest(s)][m] != 0;
      assert Val(t, Ptr(f, m)) != Val(s, Ptr(f, m));
    }
  }

  /** Pointing one index behind a new indirect block, whatever that block reads, changes only that
      index. */
  lemma StaleLink(t: Fs, f: nat, n: nat, noMem: bool, l: Loc)
    requires Pointed(t, f, n) && n >= NDIRECT && Valid(t, l) && l != Ptr(f, n)
    requires t.files[f].indirect < |t.free| && !t.free[t.files[f].indirect]
    requires l.Ptr? && l.n >= NDIRECT && l.f != f ==>
               t.files[l.f].indirect != t.files[f].indirect
               && (t.files[l.f].indirect < |t.free| ==> t.files[l.f].indirect == 0 || !t.free[t.files[l.f].indirect])
    ensures var (u, r) := AllocBlock(t, noMem);
            && Pointed(u, f, n) && Valid(u, l) && Val(u, l) == Val(t, l)
            && (r.Block? ==> Shape(SetPtr(u, f, n, r.b)) && Valid(SetPtr(u, f, n, r.b), l)
                             && Val(SetPtr(u, f, n, r.b), l) == Val(t, l))
  {
    hide FirstFree;
  }

  /** file_map_block with a new indirect block, on all the inputs it has: the index asked for gets
      what the block reads there, or if that is zero a new block; every other index behind it gets what
      the block reads; nothing else changes. */
  lemma StaleMap(s: Fs, f: nat, n: nat, noMem: bool, l: Loc)
    requires Inv(s) && f < |s.files| && NeedsIndirect(s, f, n, true) && AllocBlock(s, false).1.Block?
    requires Valid(s, l) && l != Ptr(f, n)
    ensures Lowest(s) < |s.free|
    ensures var (t, r) := MapBlock(s, f, n, true, false, noMem);
            && Shape(t) && Valid(t, l)
            && Val(t, l) == if l == Ind(f) then Lowest(s)
                            else if l.f == f && l.Ptr? && l.n >= NDIRECT then Stale(s, l.n)
                            else Val(s, l)
  {
    StaleWalk(s, f, n, l);
    StaleWalk(s, f, n, Ptr(f, n));
    StaleWalk(s, f, n, Ind(l.f));
    assert InUse(s, Ind(l.f)) && Apart(s, Ind(l.f), Ind(f));
    var t := Walk(s, f, n, true, false).0;
    assert Valid(t, Ind(l.f)) && Valid(s, Ind(l.f));
    TakenIsUnheldInd(s, l.f);
    hide Walk, AllocBlock, SetPtr, FirstFree, Lowest, Inv, InUse, Apart;
    if Val(t, Ptr(f, n)) == 0 { StaleLink(t, f, n, noMem, l); }
  }

  lemma TakenIsUnheldInd(s: Fs, f: nat)
    requires Inv(s) && f < |s.files| && Lowest(s) < |s.free|
    ensures s.files[f].indirect != 0 ==>
              s.files[f].indirect != Lowest(s) && s.files[f].indirect < |s.free| && !s.free[s.files[f].indirect]
  {
    assert InUse(s, Ind(f));
    assert Valid(s, Ind(f));
  }

  lemma StaleResult(s: Fs, f: nat, n: nat, noMem: bool)
    requires Inv(s) && f < |s.files| && NeedsIndirect(s, f, n, true) && AllocBlock(s, false).1.Block?
    ensures Lowest(s) < |s.free|
    ensures var (t, r) := MapBlock(s, f, n, true, false, noMem);
            && |t.files| == |s.files| && |t.free| == |s.free| && t.files[f].indirect == Lowest(s)
            && (Stale(s, n) != 0 ==> r == Block(Stale(s, n)) && t.free == s.free[Lowest(s) := false])
            && (Stale(s, n) == 0 && r.Block? ==>
                  r.b < |s.free| && s.free[r.b] && !t.free[r.b] && r.b != Lowest(s))
  {
    StaleWalk(s, f, n, Ptr(f, n));
    var t := Walk(s, f, n, true, false).0;
    hide Walk, FirstFree, Val, Inv;
  }

  /** file_map_block keeps its promise, changing no other pointer and handing out a block that was
      free, exactly if the block that becomes the indirect block reads as zero. */
  lemma MapBlockStale(s: Fs, f: nat, n: nat, noMem: bool)
    requires Inv(s) && f < |s.files| && NeedsIndirect(s, f, n, true) && AllocBlock(s, false).1.Block?
    ensures Lowest(s) < |s.free|
    ensures var (t, r) := MapBlock(s, f, n, true, false, noMem);
            && Shape(t) && |t.files| == |s.files| && |t.free| == |s.free|
            && ((forall l :: Valid(s, l) && l != Ind(f) && l != Ptr(f, n) ==> Val(t, l) == Val(s, l))
                && (r.Block? ==> r.b < |s.free| && s.free[r.b] && !t.free[r.b] && r.b != t.files[f].indirect)
                <==> ReadsZero(s, Lowest(s)))
  {
    var (t, r) := MapBlock(s, f, n, true, false, noMem);
    StaleMap(s, f, n, noMem, Ind(f));
    StaleResult(s, f, n, noMem);
    assert forall m: nat :: NDIRECT <= m < NINDIRECT ==> Valid(s, Ptr(f, m)) && Val(s, Ptr(f, m)) == 0;
    forall l | Valid(s, l) && l != Ptr(f, n)
      ensures Val(t, l) == if l == Ind(f) then Lowest(s)
                           else if l.f == f && l.Ptr? && l.n >= NDIRECT then Stale(s, l.n)
                           else Val(s, l)
    {
      StaleMap(s, f, n, noMem, l);
    }
    hide MapBlock, Val, Lowest, AllocBlock, Inv;
    if !ReadsZero(s, Lowest(s)) {
      var m :| NDIRECT <= m < NINDIRECT && s.words[Lowest(s)][m] != 0;
      assert Stale(s, m) != 0;
      if m != n { assert Val(t, Ptr(f, m)) != Val(s, Ptr(f, m)); }
    }
  }

  // ---------- what file_map_block answers ----------

  /** For either alloc: the block at the index if there is one; otherwise, without alloc, that there is
      none; and that the index is invalid exactly from 1024 on. It never stops the server. */
  lemma MapBlockAnswer(s: Fs, f: nat, n: nat, alloc: bool, noMem0: bool, noMem1: bool)
    requires Inv(s) && f < |s.files|
    ensures var r := MapBlock(s, f, n, alloc, noMem0, noMem1).1;
            && (n < NINDIRECT && Val(s, Ptr(f, n)) != 0 ==> r == Block(Val(s, Ptr(f, n))))
            && (r.NotFound? <==> !alloc && n < NINDIRECT && Val(s, Ptr(f, n)) == 0)
            && (r.Inval? <==> n >= NINDIRECT)
            && !r.Panic?
            && (r.NoDisk? || r.NoMem? ==> alloc && n < NINDIRECT && Val(s, Ptr(f, n)) == 0)
  {
    assert InUse(s, Ind(f));
    WalkAnswer(s, f, n, alloc, noMem0);
    var (t, w) := Walk(s, f, n, alloc, noMem0);
    if w.Block? { AllocPoints(t, f, n, noMem1); }
    hide Walk, FirstFree, Lowest, Inv;
  }

  /** Going through an indirect block needs it in use, and leaves it in memory. */
  lemma WalkReads(s: Fs, f: nat, n: nat, alloc: bool, noMem: bool)
    requires Shape(s) && f < |s.files| && NDIRECT <= n < NINDIRECT
    ensures var (t, w) := Walk(s, f, n, alloc, noMem);
            var b := s.files[f].indirect;
            && (w.Panic? <==> b != 0 && (b >= |s.free| || s.free[b]))
            && (w.Block? ==> 0 < t.files[f].indirect < |t.mapped| && t.mapped[t.files[f].indirect])
            && (b != 0 ==> t == if w.Block? then s.(mapped := s.mapped[b := true]) else s)
  {
    hide ZeroBlock;
  }

  lemma WalkAnswer(s: Fs, f: nat, n: nat, alloc: bool, noMem: bool)
    requires Shape(s) && f < |s.files| && InUse(s, Ind(f))
    ensures var (t, w) := Walk(s, f, n, alloc, noMem);
            && (w.Block? ==> Pointed(t, f, n))
            && (n < NINDIRECT && Val(s, Ptr(f, n)) != 0 ==> w.Block? && Val(t, Ptr(f, n)) == Val(s, Ptr(f, n)))
            && (n < NINDIRECT && Val(s, Ptr(f, n)) == 0 && !alloc && w.Block? ==> Val(t, Ptr(f, n)) == 0)
            && (w.NotFound? ==> !alloc && n < NINDIRECT && Val(s, Ptr(f, n)) == 0)
            && (w.Inval? <==> n >= NINDIRECT)
            && !w.Panic?
            && (w.NoDisk? || w.NoMem? ==> alloc && n < NINDIRECT && Val(s, Ptr(f, n)) == 0)
            && (n < NINDIRECT && Val(s, Ptr(f, n)) == 0 && !w.Block? ==> alloc || w.NotFound?)
  {
    WalkPoints(s, f, n, alloc, noMem);
    if s.files[f].indirect != 0 { assert Held(s, Ind(f)); }
    hide FirstFree;
  }

  // ---------- when an indirect block that was in use keeps the map free of aliases ----------

  /** The index asked for, and the bitmap, after file_map_block with a new indirect block. */
  lemma StaleEnd(s: Fs, f: nat, n: nat, noMem: bool)
    requires Inv(s) && f < |s.files| && NeedsIndirect(s, f, n, true) && AllocBlock(s, false).1.Block?
    ensures Lowest(s) < |s.free|
    ensures var (t, r) := MapBlock(s, f, n, true, false, noMem);
            && Shape(t) && |t.files| == |s.files| && Valid(t, Ptr(f, n)) && Val(t, Ptr(f, n)) == (if r.Block? then r.b else 0)
            && (if Stale(s, n) == 0 && r.Block? then
                  0 < r.b < |s.free| && s.free[r.b] && r.b != Lowest(s) && t.free == s.free[Lowest(s) := false][r.b := false]
                else t.free == s.free[Lowest(s) := false] && (r.Block? ==> r.b == Stale(s, n)))
            && (Stale(s, n) != 0 ==> r == Block(Stale(s, n)))
  {
    StaleWalk(s, f, n, Ptr(f, n));
    var t := Walk(s, f, n, true, false).0;
    AllocPoints(t, f, n, noMem);
    SetsPointer(t, f, n, noMem);
    hide Walk, FirstFree, Inv, SetPtr, AllocBlock;
  }

  lemma SetsPointer(t: Fs, f: nat, n: nat, noMem: bool)
    requires Pointed(t, f, n) && n >= NDIRECT && t.files[f].indirect < |t.free| && !t.free[t.files[f].indirect]
    ensures var (u, r) := AllocBlock(t, noMem);
            && Pointed(u, f, n)
            && (r.Block? ==>
                  && 0 < r.b < |t.free| && t.free[r.b] && u.free == t.free[r.b := false]
                  && Shape(SetPtr(u, f, n, r.b)) && Valid(SetPtr(u, f, n, r.b), Ptr(f, n))
                  && SetPtr(u, f, n, r.b).free == u.free && |SetPtr(u, f, n, r.b).files| == |t.files|
                  && Val(SetPtr(u, f, n, r.b), Ptr(f, n)) == r.b)
            && (!r.Block? ==> u == t)
  {
    hide FirstFree;
  }

  /** Word m of the block, if it is not zero, is the number of a block in use that no file holds. */
  ghost predicate WordOk(s: Fs, m: nat)
    requires Shape(s) && Lowest(s) < |s.free| && m < NINDIRECT
  {
    var b := Stale(s, m);
    b != 0 ==> b < |s.free| && !s.free[b] && forall l :: Held(s, l) ==> Val(s, l) != b
  }

  /** And no other word is the same. */
  predicate WordsDiffer(s: Fs, m: nat, k: nat)
    requires Shape(s) && Lowest(s) < |s.free| && m < NINDIRECT && k < NINDIRECT
  {
    m != k && Stale(s, m) != 0 ==> Stale(s, m) != Stale(s, k)
  }

  ghost predicate Harmless(s: Fs)
    requires Shape(s) && Lowest(s) < |s.free|
  {
    && (forall m: nat :: NDIRECT <= m < NINDIRECT ==> WordOk(s, m))
    && (forall m: nat, k: nat :: NDIRECT <= m < NINDIRECT && NDIRECT <= k < NINDIRECT ==> WordsDiffer(s, m, k))
  }

  /** What the pointers are after the call. */
  function NewVal(s: Fs, f: nat, n: nat, r: Result, l: Loc): nat
    requires Shape(s) && Lowest(s) < |s.free| && Valid(s, l)
  {
    if l == Ind(f) then Lowest(s)
    else if l == Ptr(f, n) then (if r.Block? then r.b else 0)
    else if l.f == f && l.Ptr? && l.n >= NDIRECT then Stale(s, l.n)
    else Val(s, l)
  }

  /** A pointer the block did not supply: it was there, or its block was free. */
  lemma OtherUse(s: Fs, f: nat, n: nat, noMem: bool, l: Loc)
    requires Inv(s) && f < |s.files| && NeedsIndirect(s, f, n, true) && AllocBlock(s, false).1.Block? && Valid(s, l)
    requires l.f == f && l.Ptr? && l.n >= NDIRECT ==> l.n == n && Stale(s, n) == 0
    ensures Lowest(s) < |s.free|
    ensures var (t, r) := MapBlock(s, f, n, true, false, noMem);
            var b := NewVal(s, f, n, r, l);
            && (b != 0 ==> b < |t.free| && !t.free[b])
            && (b != 0 ==> if l == Ind(f) || l == Ptr(f, n) then b < |s.free| && s.free[b] else Held(s, l) && Val(s, l) == b)
            && (r.Block? && Stale(s, n) == 0 ==> r.b != Lowest(s))
  {
    StaleEnd(s, f, n, noMem);
    LowestFree(s);
    if Held(s, l) { assert InUse(s, l); }
    hide MapBlock, Lowest, AllocBlock, Inv, Stale, Apart;
  }

  lemma LowestFree(s: Fs)
    requires Shape(s) && AllocBlock(s, false).1.Block?
    ensures Lowest(s) < |s.free| && s.free[Lowest(s)] && Lowest(s) > 0
  {
    hide FirstFree;
  }

  lemma NewVals(s: Fs, f: nat, n: nat, noMem: bool, l: Loc)
    requires Inv(s) && f < |s.files| && NeedsIndirect(s, f, n, true) && AllocBlock(s, false).1.Block? && Valid(s, l)
    ensures Lowest(s) < |s.free|
    ensures var (t, r) := MapBlock(s, f, n, true, false, noMem); Shape(t) && Valid(t, l) && Val(t, l) == NewVal(s, f, n, r, l)
  {
    StaleEnd(s, f, n, noMem);
    if l != Ptr(f, n) { StaleMap(s, f, n, noMem, l); }
    hide MapBlock, Lowest, AllocBlock, Inv, Stale;
  }

  /** A pointer that the block supplied. */
  predicate Supplied(s: Fs, f: nat, n: nat, l: Loc)
    requires Shape(s) && Lowest(s) < |s.free| && n < NINDIRECT
  {
    l.Ptr? && l.f == f && NDIRECT <= l.n < NINDIRECT && (l.n == n ==> Stale(s, n) != 0)
  }

  lemma SuppliedVal(s: Fs, f: nat, n: nat, noMem: bool, l: Loc)
    requires Inv(s) && f < |s.files| && NeedsIndirect(s, f, n, true) && AllocBlock(s, false).1.Block?
    ensures Lowest(s) < |s.free|
    ensures Valid(s, l) && Supplied(s, f, n, l) ==> NewVal(s, f, n, MapBlock(s, f, n, true, false, noMem).1, l) == Stale(s, l.n)
  {
    StaleEnd(s, f, n, noMem);
    hide MapBlock, Lowest, AllocBlock, Inv, Stale;
  }

  /** A block that is in use stays so, and is not one of those the call took. */
  lemma StillUsed(s: Fs, f: nat, n: nat, noMem: bool, b: nat)
    requires Inv(s) && f < |s.files| && NeedsIndirect(s, f, n, true) && AllocBlock(s, false).1.Block?
    requires b < |s.free| && !s.free[b]
    ensures var (t, r) := MapBlock(s, f, n, true, false, noMem); b < |t.free| && !t.free[b]
  {
    StaleEnd(s, f, n, noMem);
    hide MapBlock, Lowest, AllocBlock, Inv, Stale, Val;
  }

  lemma HarmlessUse(s: Fs, f: nat, n: nat, noMem: bool, l: Loc)
    requires Inv(s) && f < |s.files| && NeedsIndirect(s, f, n, true) && AllocBlock(s, false).1.Block?
    requires Lowest(s) < |s.free| && Harmless(s)
    ensures Shape(MapBlock(s, f, n, true, false, noMem).0) && InUse(MapBlock(s, f, n, true, false, noMem).0, l)
  {
    StaleEnd(s, f, n, noMem);
    var t := MapBlock(s, f, n, true, false, noMem).0;
    hide MapBlock, Lowest, AllocBlock, Inv, Stale, NewVal, Val;
    if Valid(t, l) {
      NewVals(s, f, n, noMem, l);
      SuppliedVal(s, f, n, noMem, l);
      if Supplied(s, f, n, l) {
        assert WordOk(s, l.n);
        if Stale(s, l.n) != 0 { StillUsed(s, f, n, noMem, Stale(s, l.n)); }
      } else {
        OtherUse(s, f, n, noMem, l);
      }
    }
  }

  lemma HarmlessApart(s: Fs, f: nat, n: nat, noMem: bool, l: Loc, m: Loc)
    requires Inv(s) && f < |s.files| && NeedsIndirect(s, f, n, true) && AllocBlock(s, false).1.Block?
    requires Lowest(s) < |s.free| && Harmless(s) && Valid(s, l) && Valid(s, m) && l != m
    requires Supplied(s, f, n, l) || !Supplied(s, f, n, m)
    ensures var r := MapBlock(s, f, n, true, false, noMem).1;
            NewVal(s, f, n, r, l) != 0 && NewVal(s, f, n, r, m) != 0 ==> NewVal(s, f, n, r, l) != NewVal(s, f, n, r, m)
  {
    var r := MapBlock(s, f, n, true, false, noMem).1;
    SuppliedVal(s, f, n, noMem, l);
    SuppliedVal(s, f, n, noMem, m);
    assert Apart(s, l, m) && InUse(s, l) && InUse(s, m);
    hide MapBlock, Lowest, AllocBlock, Inv, Stale, NewVal, Val;
    if !Supplied(s, f, n, m) { OtherUse(s, f, n, noMem, m); }
    if Supplied(s, f, n, l) {
      assert WordOk(s, l.n);
      if Supplied(s, f, n, m) { assert WordsDiffer(s, l.n, m.n); }
    } else {
      OtherUse(s, f, n, noMem, l);
      NewTwo(s, f, n, r);
    }
  }

  lemma NewTwo(s: Fs, f: nat, n: nat, r: Result)
    requires Shape(s) && f < |s.files| && Lowest(s) < |s.free| && n < NINDIRECT
    ensures NewVal(s, f, n, r, Ind(f)) == Lowest(s)
    ensures NewVal(s, f, n, r, Ptr(f, n)) == if r.Block? then r.b else 0
  {}

  /** A word that is not harmless breaks the map. */
  lemma BadWord(s: Fs, f: nat, n: nat, noMem: bool, m: nat)
    requires Inv(s) && f < |s.files| && NeedsIndirect(s, f, n, true) && AllocBlock(s, false).1.Block?
    requires Lowest(s) < |s.free| && NDIRECT <= m < NINDIRECT && !WordOk(s, m)
    ensures !Inv(MapBlock(s, f, n, true, false, noMem).0)
  {
    var (t, r) := MapBlock(s, f, n, true, false, noMem);
    var b := Stale(s, m);
    var l := Ptr(f, m);
    StaleEnd(s, f, n, noMem);
    NewVals(s, f, n, noMem, l);
    SuppliedVal(s, f, n, noMem, l);
    NewVals(s, f, n, noMem, Ind(f));
    NewVals(s, f, n, noMem, Ptr(f, n));
    NewTwo(s, f, n, r);
    hide MapBlock, Lowest, AllocBlock, Stale, NewVal, Val;
    assert Val(t, l) == b && Held(t, l);
    if b >= |s.free| || s.free[b] {
      assert !(InUse(t, l) && Apart(t, l, Ind(f)) && Apart(t, l, Ptr(f, n)));
    } else {
      var k :| Held(s, k) && Val(s, k) == b;
      OldVal(s, f, n, r, k);
      NewVals(s, f, n, noMem, k);
      assert !Apart(t, l, k);
    }
  }

  lemma OldVal(s: Fs, f: nat, n: nat, r: Result, k: Loc)
    requires Shape(s) && f < |s.files| && NeedsIndirect(s, f, n, true) && Lowest(s) < |s.free| && Held(s, k)
    ensures NewVal(s, f, n, r, k) == Val(s, k) && !(k.Ptr? && k.f == f && k.n >= NDIRECT)
  {}

  lemma TwoWords(s: Fs, f: nat, n: nat, noMem: bool, m: nat, k: nat)
    requires Inv(s) && f < |s.files| && NeedsIndirect(s, f, n, true) && AllocBlock(s, false).1.Block?
    requires Lowest(s) < |s.free| && NDIRECT <= m < NINDIRECT && NDIRECT <= k < NINDIRECT && !WordsDiffer(s, m, k)
    ensures !Inv(MapBlock(s, f, n, true, false, noMem).0)
  {
    var t := MapBlock(s, f, n, true, false, noMem).0;
    NewVals(s, f, n, noMem, Ptr(f, m));
    NewVals(s, f, n, noMem, Ptr(f, k));
    SuppliedVal(s, f, n, noMem, Ptr(f, m));
    SuppliedVal(s, f, n, noMem, Ptr(f, k));
    hide MapBlock, Lowest, AllocBlock, Stale, NewVal, Val;
    assert !Apart(t, Ptr(f, m), Ptr(f, k));
  }

  /** Whatever the new indirect block holds: no two pointers name one block and every block reached is in
      use afterwards, if and only if each word from 10 on that is not zero in it is the number of a block
      in use that no file holds, and no two of them are the same. */
  lemma StaleKeepsInv(s: Fs, f: nat, n: nat, noMem: bool)
    requires Inv(s) && f < |s.files| && NeedsIndirect(s, f, n, true) && AllocBlock(s, false).1.Block?
    ensures Lowest(s) < |s.free|
    ensures Inv(MapBlock(s, f, n, true, false, noMem).0) <==> Harmless(s)
  {
    var (t, r) := MapBlock(s, f, n, true, false, noMem);
    StaleEnd(s, f, n, noMem);
    hide MapBlock, Lowest, AllocBlock, Stale, NewVal, Val, WordOk, WordsDiffer;
    if Harmless(s) {
      forall l ensures InUse(t, l) { HarmlessUse(s, f, n, noMem, l); }
      forall l, m | l != m && Held(t, l) && Held(t, m) ensures Val(t, l) != Val(t, m) {
        NewVals(s, f, n, noMem, l);
        NewVals(s, f, n, noMem, m);
        if Supplied(s, f, n, l) || !Supplied(s, f, n, m) {
          HarmlessApart(s, f, n, noMem, l, m);
        } else {
          HarmlessApart(s, f, n, noMem, m, l);
        }
      }
    } else if m: nat :| NDIRECT <= m < NINDIRECT && !WordOk(s, m) {
      BadWord(s, f, n, noMem, m);
    } else {
      var m: nat, k: nat :| NDIRECT <= m < NINDIRECT && NDIRECT <= k < NINDIRECT && !WordsDiffer(s, m, k);
      TwoWords(s, f, n, noMem, m, k);
    }
  }

  // ---------- file_clear_block ----------

  lemma FreeVals(s: Fs, b: nat, l: Loc)
    requires Shape(s) && b < |s.free| && Valid(s, l)
    ensures Shape(s.(free := s.free[b := true])) && Valid(s.(free := s.free[b := true]), l)
    ensures Val(s.(free := s.free[b := true]), l) == Val(s, l)
  {}

  /** Freeing the block behind one pointer and clearing the pointer. */
  lemma DropInv(s: Fs, f: nat, n: nat)
    requires Inv(s) && Pointed(s, f, n) && Val(s, Ptr(f, n)) != 0
    ensures Val(s, Ptr(f, n)) < |s.free|
    ensures var t := s.(free := s.free[Val(s, Ptr(f, n)) := true]);
            Pointed(t, f, n) && Inv(SetPtr(t, f, n, 0))
  {
    var b := Val(s, Ptr(f, n));
    assert InUse(s, Ptr(f, n));
    var c := SetPtr(s, f, n, 0);
    SetPtrInv(s, f, n, 0);
    var u := SetPtr(s.(free := s.free[b := true]), f, n, 0);
    assert u == c.(free := c.free[b := true]);
    forall l | Valid(c, l) ensures Shape(u) && Valid(u, l) && Val(u, l) == Val(c, l) && (Val(c, l) != 0 ==> Val(c, l) != b) {
      FreeVals(c, b, l);
      SetPtrVals(s, f, n, 0, l);
      assert Apart(s, l, Ptr(f, n));
    }
    hide Val;
    forall l ensures InUse(u, l) { assert InUse(c, l); }
    forall l, m ensures Apart(u, l, m) { assert Apart(c, l, m); }
  }

  predicate Frees(s: Fs, f: nat, n: nat)
    requires Shape(s) && f < |s.files|
  {
    n < NINDIRECT && Val(s, Ptr(f, n)) != 0 && Val(s, Ptr(f, n)) < |s.free|
  }

  /** file_clear_block frees exactly the block at that index, if there is one, clears exactly
      that pointer, and keeps the invariant. */
  lemma ClearBlockEffect(s: Fs, f: nat, n: nat, l: Loc)
    requires Inv(s) && f < |s.files|
    ensures var t := ClearBlock(s, f, n);
            && Inv(t) && |t.files| == |s.files|
            && t.free == (if Frees(s, f, n) then s.free[Val(s, Ptr(f, n)) := true] else s.free)
            && (Valid(s, l) ==> Valid(t, l) && Val(t, l) == if l == Ptr(f, n) then 0 else Val(s, l))
  {
    var (t, w) := Walk(s, f, n, false, false);
    WalkEffect(s, f, n, false, false, l);
    WalkTakes(s, f, n, false, false);
    if n < NINDIRECT { WalkEffect(s, f, n, false, false, Ptr(f, n)); }
    if w.Block? {
      var b := Val(t, Ptr(f, n));
      if b != 0 {
        DropInv(t, f, n);
        if Valid(s, l) {
          SetPtrVals(t, f, n, 0, l);
          FreeVals(SetPtr(t, f, n, 0), b, l);
          assert SetPtr(t.(free := t.free[b := true]), f, n, 0)
              == SetPtr(t, f, n, 0).(free := t.free[b := true]);
        }
      }
    }
  }

  // ---------- file_truncate ----------

  function Blocks(size: nat): nat { size / BY2BLK + 1 }

  /** The number of blocks file_truncate keeps. */
  function Kept(newsize: nat): nat { if newsize == 0 then 0 else Blocks(newsize) }

  function ClearRange(s: Fs, f: nat, lo: nat, hi: nat): (t: Fs)
    requires Shape(s) && f < |s.files|
    ensures Shape(t) && |t.files| == |s.files| && |t.free| == |s.free|
    decreases hi - lo
  {
    if lo >= hi then s else ClearRange(ClearBlock(s, f, lo), f, lo + 1, hi)
  }

  function DropIndirect(s: Fs, f: nat): (t: Fs)
    requires Shape(s) && f < |s.files|
    ensures Shape(t)
  {
    s.(files := s.files[f := s.files[f].(indirect := 0)])
  }

  function SetSize(s: Fs, f: nat, size: nat): (t: Fs)
    requires Shape(s) && f < |s.files|
    ensures Shape(t)
  {
    s.(files := s.files[f := s.files[f].(size := size)])
  }

  /** With at most ten blocks kept, f_indirect is cleared before the loop, so the loop finds
      nothing behind it. */
  function Truncate(s: Fs, f: nat, newsize: nat): (t: Fs)
    requires Shape(s) && f < |s.files|
    ensures Shape(t) && |t.files| == |s.files| && |t.free| == |s.free|
  {
    var u := if Kept(newsize) <= NDIRECT then DropIndirect(s, f) else s;
    SetSize(ClearRange(u, f, Kept(newsize), Blocks(s.files[f].size)), f, newsize)
  }

  /** The pointer at l is one that the loop over [lo, hi) clears. */
  predicate Cleared(l: Loc, f: nat, lo: nat, hi: nat) { l.Ptr? && l.f == f && lo <= l.n < hi }

  /** Block b is freed by the loop over [lo, hi): f holds it at one of those indices. */
  predicate FreedBy(s: Fs, f: nat, lo: nat, hi: nat, b: nat)
    requires Shape(s) && f < |s.files|
  {
    exists n :: lo <= n < hi && n < NINDIRECT && FreesBlock(s, f, n, b)
  }

  predicate FreesBlock(s: Fs, f: nat, n: nat, b: nat)
    requires Shape(s) && f < |s.files|
  {
    Frees(s, f, n) && Val(s, Ptr(f, n)) == b
  }

  lemma {:induction false} ClearRangeVals(s: Fs, f: nat, lo: nat, hi: nat, l: Loc)
    requires Inv(s) && f < |s.files|
    ensures var t := ClearRange(s, f, lo, hi);
            Inv(t) && (Valid(s, l) ==> Valid(t, l) && Val(t, l) == if Cleared(l, f, lo, hi) then 0 else Val(s, l))
    decreases hi - lo
  {
    if lo < hi {
      ClearBlockEffect(s, f, lo, l);
      hide ClearBlock, Val, Inv;
      ClearRangeVals(ClearBlock(s, f, lo), f, lo + 1, hi, l);
    }
  }

  lemma {:induction false} ClearRangeFrees(s: Fs, f: nat, lo: nat, hi: nat, b: nat)
    requires Inv(s) && f < |s.files| && b < |s.free|
    ensures ClearRange(s, f, lo, hi).free[b] <==> s.free[b] || FreedBy(s, f, lo, hi, b)
    decreases hi - lo
  {
    if lo < hi {
      var u := ClearBlock(s, f, lo);
      ClearBlockEffect(s, f, lo, Ind(f));
      forall n | 0 <= n < NINDIRECT ensures FreesBlock(u, f, n, b) <==> n != lo && FreesBlock(s, f, n, b) {
        ClearBlockEffect(s, f, lo, Ptr(f, n));
      }
      ClearRangeFrees(u, f, lo + 1, hi, b);
      hide ClearBlock, Val, Inv, ClearRange;
      assert FreedBy(s, f, lo, hi, b) <==> FreesBlockAt(s, f, lo, b) || FreedBy(u, f, lo + 1, hi, b);
    }
  }

  predicate FreesBlockAt(s: Fs, f: nat, n: nat, b: nat)
    requires Shape(s) && f < |s.files|
  {
    n < NINDIRECT && FreesBlock(s, f, n, b)
  }

  lemma DropIndirectVals(s: Fs, f: nat, l: Loc)
    requires Shape(s) && f < |s.files| && Valid(s, l)
    ensures Valid(DropIndirect(s, f), l)
    ensures Val(DropIndirect(s, f), l)
            == if l.f == f && (l.Ind? || l.n >= NDIRECT) then 0 else Val(s, l)
  {}

  lemma DropIndirectInv(s: Fs, f: nat)
    requires Inv(s) && f < |s.files|
    ensures Inv(DropIndirect(s, f))
  {
    var t := DropIndirect(s, f);
    forall l | Valid(s, l) ensures Val(t, l) == 0 || Val(t, l) == Val(s, l) { DropIndirectVals(s, f, l); }
    hide Val;
    forall l ensures InUse(t, l) { assert InUse(s, l); }
    forall l, m ensures Apart(t, l, m) { assert Apart(s, l, m); }
  }

  lemma SetSizeVals(s: Fs, f: nat, size: nat, l: Loc)
    requires Shape(s) && f < |s.files| && Valid(s, l)
    ensures Valid(SetSize(s, f, size), l) && Val(SetSize(s, f, size), l) == Val(s, l)
  {}

  lemma SetSizeInv(s: Fs, f: nat, size: nat)
    requires Inv(s) && f < |s.files|
    ensures Inv(SetSize(s, f, size))
  {
    var t := SetSize(s, f, size);
    forall l | Valid(s, l) ensures Val(t, l) == Val(s, l) { SetSizeVals(s, f, size, l); }
    hide Val;
    forall l ensures InUse(t, l) { assert InUse(s, l); }
    forall l, m ensures Apart(t, l, m) { assert Apart(s, l, m); }
  }

  /** Block n begins within the old size, and past the new one: at its end at the earliest, or
      anywhere if nothing is kept. */
  predicate Beyond(oldsize: nat, newsize: nat, n: nat) {
    n * BY2BLK <= oldsize && (newsize == 0 || n * BY2BLK > newsize)
  }

  /** The new size ends within the direct blocks. */
  predicate Short(newsize: nat) { newsize < NDIRECT * BY2BLK }

  /** Pointers that a truncation of f to newsize sets to zero, in bytes. */
  predicate CutOff(s: Fs, f: nat, newsize: nat, l: Loc)
    requires f < |s.files|
  {
    l.f == f &&
    if l.Ind? then Short(newsize)
    else Beyond(s.files[f].size, newsize, l.n) || (l.n >= NDIRECT && Short(newsize))
  }

  lemma BytesAndBlocks(oldsize: nat, newsize: nat, n: nat)
    ensures Kept(newsize) <= n < Blocks(oldsize) <==> Beyond(oldsize, newsize, n)
    ensures Kept(newsize) <= NDIRECT <==> Short(newsize)
  {}

  /** Truncation, for every old and new size: it zeroes the pointers past the blocks it keeps
      and no other pointer of any file, and what is still reachable stays marked in use and
      free of aliases. No other file changes. */
  lemma TruncateEffect(s: Fs, f: nat, newsize: nat, l: Loc)
    requires Inv(s) && f < |s.files|
    ensures var t := Truncate(s, f, newsize);
            && Inv(t) && t.files[f].size == newsize && (l.f < |s.files| && l.f != f ==> t.files[l.f] == s.files[l.f])
            && (Valid(s, l) ==> Valid(t, l) && Val(t, l) == if CutOff(s, f, newsize, l) then 0 else Val(s, l))
  {
    var u := if Kept(newsize) <= NDIRECT then DropIndirect(s, f) else s;
    if Kept(newsize) <= NDIRECT {
      DropIndirectInv(s, f);
      if Valid(s, l) { DropIndirectVals(s, f, l); }
    }
    var lo, hi := Kept(newsize), Blocks(s.files[f].size);
    ClearRangeVals(u, f, lo, hi, l);
    ClearRangeFiles(u, f, lo, hi);
    SetSizeInv(ClearRange(u, f, lo, hi), f, newsize);
    BytesAndBlocks(s.files[f].size, newsize, if l.Ptr? then l.n else 0);
    hide Val, Inv, ClearRange, Kept, Blocks, Beyond, Short;
    if Valid(s, l) { SetSizeVals(ClearRange(u, f, lo, hi), f, newsize, l); }
  }

  lemma {:induction false} ClearRangeFiles(s: Fs, f: nat, lo: nat, hi: nat)
    requires Shape(s) && f < |s.files|
    ensures var t := ClearRange(s, f, lo, hi);
            t.files[f].size == s.files[f].size && forall g :: 0 <= g < |s.files| && g != f ==> t.files[g] == s.files[g]
    decreases hi - lo
  {
    if lo < hi { ClearRangeFiles(ClearBlock(s, f, lo), f, lo + 1, hi); }
  }

  /** The loop of a truncation reaches index n with its pointer there. */
  predicate Reaped(s: Fs, f: nat, newsize: nat, n: nat)
    requires f < |s.files|
  {
    n < NINDIRECT && Beyond(s.files[f].size, newsize, n) && (Short(newsize) ==> n < NDIRECT)
  }

  /** Truncation frees a block exactly if f holds it at an index that begins past the new size and
      within the old one, and, when the new size ends within the direct blocks, at a direct one. */
  lemma TruncateFrees(s: Fs, f: nat, newsize: nat, b: nat)
    requires Inv(s) && f < |s.files| && b < |s.free|
    ensures Truncate(s, f, newsize).free[b]
            <==> s.free[b] || exists n :: Reaped(s, f, newsize, n) && FreesBlock(s, f, n, b)
  {
    LoopFrees(s, f, newsize, b);
    var hi := if Kept(newsize) <= NDIRECT then Min(NDIRECT, Blocks(s.files[f].size)) else Blocks(s.files[f].size);
    forall n: nat ensures Reaped(s, f, newsize, n) <==> Kept(newsize) <= n < hi && n < NINDIRECT {
      BytesAndBlocks(s.files[f].size, newsize, n);
    }
    hide Inv, Truncate, Beyond, Kept, Blocks, Val, Short;
  }

  lemma LoopFrees(s: Fs, f: nat, newsize: nat, b: nat)
    requires Inv(s) && f < |s.files| && b < |s.free|
    ensures Truncate(s, f, newsize).free[b]
            <==> s.free[b]
                 || FreedBy(s, f, Kept(newsize),
                            if Kept(newsize) <= NDIRECT then Min(NDIRECT, Blocks(s.files[f].size))
                            else Blocks(s.files[f].size), b)
  {
    var lo, hi := Kept(newsize), Blocks(s.files[f].size);
    if Kept(newsize) <= NDIRECT {
      var u := DropIndirect(s, f);
      DropIndirectInv(s, f);
      ClearRangeFrees(u, f, lo, hi, b);
      forall n | 0 <= n < NINDIRECT ensures FreesBlock(u, f, n, b) <==> n < NDIRECT && FreesBlock(s, f, n, b) {
        DropIndirectVals(s, f, Ptr(f, n));
      }
    } else {
      ClearRangeFrees(s, f, lo, hi, b);
    }
  }

  function Min(a: nat, b: nat): nat { if a < b then a else b }

  /** Block b is reached by some file. */
  ghost predicate Reached(s: Fs, b: nat)
    requires Shape(s)
  {
    exists l :: Held(s, l) && Val(s, l) == b
  }

  /** A block is leaked by a step from s to t: it was reached, is no longer, and is not free. */
  ghost predicate Leaked(s: Fs, t: Fs, b: nat)
    requires Shape(s) && Shape(t)
  {
    b < |t.free| && Reached(s, b) && !Reached(t, b) && !t.free[b]
  }

  lemma TruncateKeeps(s: Fs, f: nat, newsize: nat, l: Loc)
    requires Inv(s) && f < |s.files| && Held(s, l) && !Held(Truncate(s, f, newsize), l)
    requires !Short(newsize) || s.files[f].indirect == 0
    ensures Val(s, l) < |s.free| && Truncate(s, f, newsize).free[Val(s, l)]
  {
    assert InUse(s, l);
    TruncateEffect(s, f, newsize, l);
    TruncateFrees(s, f, newsize, Val(s, l));
    assert Reaped(s, f, newsize, l.n) && FreesBlock(s, f, l.n, Val(s, l));
  }

  lemma IndirectLeaks(s: Fs, f: nat, newsize: nat)
    requires Inv(s) && f < |s.files| && Short(newsize) && s.files[f].indirect != 0
    ensures Leaked(s, Truncate(s, f, newsize), s.files[f].indirect)
  {
    var t := Truncate(s, f, newsize);
    var b := s.files[f].indirect;
    assert Held(s, Ind(f)) && InUse(s, Ind(f)) && Val(s, Ind(f)) == b;
    forall l | Held(t, l) ensures Val(t, l) != b {
      TruncateEffect(s, f, newsize, l);
      assert Apart(s, l, Ind(f));
      assert Valid(s, l) by { assert |t.files| == |s.files|; }
    }
    TruncateFrees(s, f, newsize, b);
    forall n | 0 <= n < NINDIRECT ensures !FreesBlock(s, f, n, b) { assert Apart(s, Ptr(f, n), Ind(f)); }
  }

  /** Every byte within the new size keeps its block, and the block stays in use. */
  lemma TruncateBytes(s: Fs, f: nat, newsize: nat, i: nat)
    requires Inv(s) && f < |s.files| && i < newsize && i / 4096 < NINDIRECT
    ensures var t := Truncate(s, f, newsize); var l := Ptr(f, i / 4096);
            && Valid(t, l) && Val(t, l) == Val(s, l)
            && (Val(s, l) != 0 ==> Val(s, l) < |t.free| && !t.free[Val(s, l)])
  {
    var l := Ptr(f, i / 4096);
    TruncateEffect(s, f, newsize, l);
    assert InUse(Truncate(s, f, newsize), l);
    hide Truncate, Val;
  }

  /** Which pointers survive: a direct one that was set exactly if it lies past the old size or begins
      within a new size that is not zero; an indirect one if, besides, the new size reaches the indirect
      blocks; f_indirect exactly if it does. */
  lemma TruncateSurvives(s: Fs, f: nat, newsize: nat, l: Loc)
    requires Inv(s) && f < |s.files| && Held(s, l) && l.f == f
    ensures var t := Truncate(s, f, newsize);
            && Valid(t, l)
            && (Val(t, l) == Val(s, l)
                <==> match l
                     case Ind(_) => newsize >= 40960
                     case Ptr(_, n) =>
                       && (n * 4096 > s.files[f].size || (newsize > 0 && n * 4096 <= newsize))
                       && (n < 10 || newsize >= 40960))
  {
    TruncateEffect(s, f, newsize, l);
    hide Truncate, Val, Inv;
  }

  /** Truncation leaks a block exactly when it ends within the direct blocks of a file that has an
      indirect block. */
  lemma TruncateLeaks(s: Fs, f: nat, newsize: nat)
    requires Inv(s) && f < |s.files|
    ensures Inv(Truncate(s, f, newsize))
    ensures (exists b :: Leaked(s, Truncate(s, f, newsize), b))
            <==> Short(newsize) && s.files[f].indirect != 0
  {
    var t := Truncate(s, f, newsize);
    TruncateEffect(s, f, newsize, Ind(f));
    if Short(newsize) && s.files[f].indirect != 0 {
      IndirectLeaks(s, f, newsize);
    } else {
      forall b ensures !Leaked(s, t, b) {
        if Reached(s, b) && !Reached(t, b) {
          var l :| Held(s, l) && Val(s, l) == b;
          TruncateEffect(s, f, newsize, l);
          assert !Held(t, l);
          TruncateKeeps(s, f, newsize, l);
        }
      }
    }
  }

  // ---------- runs ----------

  datatype Step =
    | Map(f: nat, n: nat, alloc: bool, noMem0: bool, noMem1: bool)
    | Clear(f: nat, n: nat)
    | Cut(f: nat, newsize: nat)
    | Store(f: nat, n: nat, w: seq<nat>)      // data written into the block at index n

  predicate Can(s: Fs, step: Step) {
    Shape(s) && step.f < |s.files|
    && match step
       case Map(f, n, alloc, _, _) => Fresh(s, f, n, alloc)
       case Store(f, n, w) => Held(s, Ptr(f, n)) && Val(s, Ptr(f, n)) < |s.words| && |w| == NINDIRECT
       case _ => true
  }

  function StoreData(s: Fs, b: nat, w: seq<nat>): (t: Fs)
    requires Shape(s) && b < |s.words| && |w| == NINDIRECT
    ensures Shape(t)
  {
    s.(words := s.words[b := w], mapped := s.mapped[b := true])
  }

  function Next(s: Fs, step: Step): Fs
    requires Can(s, step)
  {
    match step
    case Map(f, n, alloc, noMem0, noMem1) => MapBlock(s, f, n, alloc, noMem0, noMem1).0
    case Clear(f, n) => ClearBlock(s, f, n)
    case Cut(f, newsize) => Truncate(s, f, newsize)
    case Store(f, n, w) => StoreData(s, Val(s, Ptr(f, n)), w)
  }

  /** Data written to a block changes no block pointer, because no data block is anyone's
      indirect block. */
  lemma StoreVals(s: Fs, f: nat, n: nat, w: seq<nat>, l: Loc)
    requires Inv(s) && Can(s, Store(f, n, w)) && Valid(s, l)
    ensures Valid(Next(s, Store(f, n, w)), l) && Val(Next(s, Store(f, n, w)), l) == Val(s, l)
  {
    assert Apart(s, Ptr(f, n), Ind(l.f));
    assert Valid(s, Ind(l.f));
  }

  lemma StoreInv(s: Fs, f: nat, n: nat, w: seq<nat>)
    requires Inv(s) && Can(s, Store(f, n, w))
    ensures Inv(Next(s, Store(f, n, w)))
  {
    var t := Next(s, Store(f, n, w));
    forall l | Valid(s, l) ensures Val(t, l) == Val(s, l) { StoreVals(s, f, n, w, l); }
    hide Val;
    forall l ensures InUse(t, l) { assert InUse(s, l); }
    forall l, m ensures Apart(t, l, m) { assert Apart(s, l, m); }
  }

  lemma StepInv(s: Fs, step: Step)
    requires Inv(s) && Can(s, step)
    ensures Inv(Next(s, step))
  {
    hide Inv, Val;
    match step
    case Map(f, n, alloc, noMem0, noMem1) => MapBlockEffect(s, f, n, alloc, noMem0, noMem1, Ind(f));
    case Clear(f, n) => ClearBlockEffect(s, f, n, Ind(f));
    case Cut(f, newsize) => TruncateEffect(s, f, newsize, Ind(f));
    case Store(f, n, w) => StoreInv(s, f, n, w);
  }

  predicate Reaches(s: Fs, steps: seq<Step>)
    decreases |steps|
  {
    steps == [] || (Can(s, steps[0]) && Reaches(Next(s, steps[0]), steps[1..]))
  }

  function Run(s: Fs, steps: seq<Step>): Fs
    requires Reaches(s, steps)
    decreases |steps|
  {
    if steps == [] then s else Run(Next(s, steps[0]), steps[1..])
  }

  /** The block map never aliases: over any run of mapping, clearing, truncating and writing
      data, if indirect blocks read as zero when they are allocated, all blocks reached from all
      files stay pairwise distinct and marked in use. */
  lemma {:induction false} NeverAliases(s: Fs, steps: seq<Step>)
    requires Inv(s) && Reaches(s, steps)
    ensures Inv(Run(s, steps))
    decreases |steps|
  {
    hide Inv, Can, Next;
    if steps != [] {
      StepInv(s, steps[0]);
      NeverAliases(Next(s, steps[0]), steps[1..]);
    }
  }

  // ---------- a run into an alias ----------

  function TenZeros(): (d: seq<nat>)
    ensures |d| == NDIRECT && forall i :: 0 <= i < NDIRECT ==> d[i] == 0
  {
    seq(NDIRECT, i => 0)
  }

  /** A block of data whose word 20 is 4. */
  function Data(): (w: seq<nat>)
    ensures |w| == NINDIRECT && forall i :: 0 <= i < NINDIRECT ==> w[i] == if i == 20 then 4 else 0
  {
    seq(NINDIRECT, i => if i == 20 then 4 else 0)
  }

  /** Blocks 3, 4 and 5 of a disk of six, as `free` and `third` say; file 0 has `d0` for its first two
      blocks and file 1 has nothing. */
  function Small(free3: bool, free4: bool, map3: bool, map4: bool, third: seq<nat>, d0: nat, d1: nat): (s: Fs)
    requires |third| == NINDIRECT
    ensures Shape(s)
  {
    var z := ZeroBlock();
    Fs([false, false, false, free3, free4, true], [false, false, false, map3, map4, false], [z, z, z, third, z, z],
       [File(0, Put(Put(TenZeros(), 0, d0), 1, d1), 0), File(0, TenZeros(), 0)])
  }

  lemma SmallLowest(free3: bool, free4: bool, map3: bool, map4: bool, third: seq<nat>, d0: nat, d1: nat)
    requires |third| == NINDIRECT
    ensures Lowest(Small(free3, free4, map3, map4, third, d0, d1)) == if free3 then 3 else if free4 then 4 else 5
  {
    var s := Small(free3, free4, map3, map4, third, d0, d1);
    FirstFreeIs(s.free, FIRST, if free3 then 3 else if free4 then 4 else 5);
  }

  lemma SmallInv()
    ensures Inv(Small(true, true, false, false, ZeroBlock(), 0, 0))
  {
    var s := Small(true, true, false, false, ZeroBlock(), 0, 0);
    forall l | Valid(s, l) ensures Val(s, l) == 0 {}
  }

  lemma MapDirect(s: Fs, f: nat, n: nat)
    requires Shape(s) && f < |s.files| && n < NDIRECT && s.files[f].direct[n] == 0 && Lowest(s) < |s.free|
    ensures var b := Lowest(s);
            MapBlock(s, f, n, true, false, false)
            == (Fs(s.free[b := false], s.mapped[b := true], if s.mapped[b] then s.words else s.words[b := ZeroBlock()],
                   s.files[f := s.files[f].(direct := Put(s.files[f].direct, n, b))]), Block(b))
  {
    var b := Lowest(s);
    assert s.mapped[b] ==> s.mapped[b := true] == s.mapped;
    hide Lowest;
  }

  /** File 0 gets two blocks, data is written to the first, and that one is cleared. */
  function AliasRun(): seq<Step> {
    [Map(0, 0, true, false, false), Map(0, 1, true, false, false), Store(0, 0, Data()), Clear(0, 0)]
  }

  lemma AliasStart()
    ensures Reaches(Small(true, true, false, false, ZeroBlock(), 0, 0), AliasRun())
    ensures Run(Small(true, true, false, false, ZeroBlock(), 0, 0), AliasRun())
            == Small(true, false, true, true, Data(), 0, 4)
  {
    var s0 := Small(true, true, false, false, ZeroBlock(), 0, 0);
    var s1 := Small(false, true, true, false, ZeroBlock(), 3, 0);
    var s2 := Small(false, false, true, true, ZeroBlock(), 3, 4);
    var s3 := Small(false, false, true, true, Data(), 3, 4);
    var s4 := Small(true, false, true, true, Data(), 0, 4);
    AliasMaps();
    AliasStores();
    hide Small, Next, AliasRun;
    RunCons(s3, Clear(0, 0), []);
    RunCons(s2, Store(0, 0, Data()), [Clear(0, 0)]);
    RunCons(s1, Map(0, 1, true, false, false), [Store(0, 0, Data())] + ([Clear(0, 0)] + []));
    AliasRunIs();
    RunCons(s0, Map(0, 0, true, false, false), [Map(0, 1, true, false, false)] + ([Store(0, 0, Data())] + ([Clear(0, 0)] + [])));
  }

  lemma AliasRunIs()
    ensures AliasRun() == [Map(0, 0, true, false, false)]
                          + ([Map(0, 1, true, false, false)] + ([Store(0, 0, Data())] + ([Clear(0, 0)] + [])))
  {}

  lemma RunCons(s: Fs, step: Step, rest: seq<Step>)
    requires Can(s, step) && Reaches(Next(s, step), rest)
    ensures Reaches(s, [step] + rest) && Run(s, [step] + rest) == Run(Next(s, step), rest)
  {
    assert ([step] + rest)[1..] == rest;
  }

  lemma AliasMaps()
    ensures var s0 := Small(true, true, false, false, ZeroBlock(), 0, 0);
            Can(s0, Map(0, 0, true, false, false))
            && Next(s0, Map(0, 0, true, false, false)) == Small(false, true, true, false, ZeroBlock(), 3, 0)
    ensures var s1 := Small(false, true, true, false, ZeroBlock(), 3, 0);
            Can(s1, Map(0, 1, true, false, false))
            && Next(s1, Map(0, 1, true, false, false)) == Small(false, false, true, true, ZeroBlock(), 3, 4)
  {
    var s0 := Small(true, true, false, false, ZeroBlock(), 0, 0);
    var s1 := Small(false, true, true, false, ZeroBlock(), 3, 0);
    SmallLowest(true, true, false, false, ZeroBlock(), 0, 0);
    SmallLowest(false, true, true, false, ZeroBlock(), 3, 0);
    MapDirect(s0, 0, 0);
    MapDirect(s1, 0, 1);
    hide MapBlock, Lowest;
    assert Put(Put(Put(TenZeros(), 0, 0), 1, 0), 0, 3) == Put(Put(TenZeros(), 0, 3), 1, 0);
    assert Put(Put(Put(TenZeros(), 0, 3), 1, 0), 1, 4) == Put(Put(TenZeros(), 0, 3), 1, 4);
  }

  lemma AliasStores()
    ensures var s2 := Small(false, false, true, true, ZeroBlock(), 3, 4);
            Can(s2, Store(0, 0, Data()))
            && Next(s2, Store(0, 0, Data())) == Small(false, false, true, true, Data(), 3, 4)
    ensures var s3 := Small(false, false, true, true, Data(), 3, 4);
            Can(s3, Clear(0, 0)) && Next(s3, Clear(0, 0)) == Small(true, false, true, true, Data(), 0, 4)
  {
    assert Put(Put(Put(TenZeros(), 0, 3), 1, 4), 0, 0) == Put(Put(TenZeros(), 0, 0), 1, 4);
  }

  /** Then file 1 asks for its block 10: the cleared block, still in memory, becomes its indirect block,
      and the data in it makes block 4, which file 0 holds at index 1, also its block 20. */
  lemma StaleAliases()
    ensures var s0 := Small(true, true, false, false, ZeroBlock(), 0, 0);
            && Inv(s0) && Reaches(s0, AliasRun()) && Shape(Run(s0, AliasRun())) && |Run(s0, AliasRun()).files| == 2
            && var t := MapBlock(Run(s0, AliasRun()), 1, 10, true, false, false).0;
               && Shape(t) && Valid(t, Ptr(0, 1)) && Valid(t, Ptr(1, 20))
               && Val(t, Ptr(1, 20)) == Val(t, Ptr(0, 1)) == 4 && !Inv(t)
  {
    var s0 := Small(true, true, false, false, ZeroBlock(), 0, 0);
    var s := Small(true, false, true, true, Data(), 0, 4);
    SmallInv();
    AliasStart();
    NeverAliases(s0, AliasRun());
    SmallLowest(true, false, true, true, Data(), 0, 4);
    hide Inv, Lowest, Run, Reaches, MapBlock, AliasRun, FirstFree;
    StaleMap(s, 1, 10, false, Ptr(1, 20));
    StaleMap(s, 1, 10, false, Ptr(0, 1));
    var t := MapBlock(s, 1, 10, true, false, false).0;
    Aliased(t, Ptr(1, 20), Ptr(0, 1));
  }

  lemma Aliased(t: Fs, l: Loc, m: Loc)
    requires Shape(t) && Valid(t, l) && Valid(t, m) && l != m && Val(t, l) == Val(t, m) != 0
    ensures !Inv(t)
  {
    assert !Apart(t, l, m);
  }
}
