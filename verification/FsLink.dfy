/** The tree of directories is an abstraction of the block map: fetching a block of a File structure
    is file_map_block on the file's pointers, with every failure. */
module FsLink {
  import B = FsBlocks
  import opened T = FsTree

  /** The free list holds the free blocks from the third on, lowest first. */
  ghost predicate Lists(bits: seq<bool>, free: seq<nat>) {
    && (forall j, k :: 0 <= j < k < |free| ==> free[j] < free[k])
    && (forall k :: 0 <= k < |free| ==> B.FIRST <= free[k] < |bits| && bits[free[k]])
    && (forall b: nat :: B.FIRST <= b < |bits| && bits[b] ==> b in free)
  }

  /** What is left in block b as an indirect block. */
  ghost function Nonzero(ws: seq<nat>): set<nat>
    requires |ws| == B.NINDIRECT
  {
    set i | NDIRECT <= i < B.NINDIRECT && ws[i] != 0
  }

  ghost predicate Caches(s: B.Fs, t: Tree)
    requires B.Shape(s)
  {
    forall b :: b in t.free && b < |s.free| ==>
      (b in t.cached <==> s.mapped[b]) && (b in t.cached ==> t.cached[b] == Nonzero(s.words[b]))
  }

  /** Structure r has the pointers of file f: those it owns, and those left over. */
  ghost predicate Points(s: B.Fs, f: nat, n: Node)
    requires B.Shape(s) && f < |s.files|
  {
    && (n.ind <==> s.files[f].indirect != 0)
    && (n.ind ==> s.files[f].indirect < |s.free| && !s.free[s.files[f].indirect])
    && forall i :: 0 <= i < B.NINDIRECT ==> PointsAt(s, f, n, i)
  }

  predicate PointsAt(s: B.Fs, f: nat, n: Node, i: nat)
    requires B.Shape(s) && f < |s.files| && i < B.NINDIRECT
  {
    && (i in n.blocks || i in n.stray <==> B.Val(s, B.Ptr(f, i)) != 0)
    && (i in n.blocks ==> n.blocks[i] == B.Val(s, B.Ptr(f, i)))
  }

  ghost predicate Linked(s: B.Fs, t: Tree, f: nat, r: Ref) {
    && B.Shape(s) && f < |s.files| && Valid(t, r)
    && Lists(s.free, t.free) && Caches(s, t) && Points(s, f, Get(t, r))
  }

  lemma LowestIsFirst(s: B.Fs, t: Tree)
    requires B.Shape(s) && Lists(s.free, t.free)
    ensures t.free == [] ==> B.Lowest(s) >= |s.free|
    ensures t.free != [] ==> B.Lowest(s) == t.free[0] < |s.free|
  {
    if t.free != [] {
      forall k | 0 <= k < |t.free| ensures t.free[k] >= t.free[0] {}
      B.FirstFreeIs(s.free, B.FIRST, t.free[0]);
    }
    hide B.FirstFree;
  }

  lemma ListsRest(bits: seq<bool>, free: seq<nat>)
    requires Lists(bits, free) && free != []
    ensures free[0] < |bits| && Lists(bits[free[0] := false], free[1..])
  {
    var b0 := free[0];
    forall b: nat | B.FIRST <= b < |bits| && bits[b0 := false][b] ensures b in free[1..] {
      assert b in free;
    }
  }

  lemma RestIn(free: seq<nat>, b: nat)
    requires free != [] && (forall j, k :: 0 <= j < k < |free| ==> free[j] < free[k]) && b in free[1..]
    ensures b in free && b != free[0]
  {
    var k :| 0 <= k < |free[1..]| && free[1..][k] == b;
    assert free[k + 1] == b;
  }

  /** Which blocks are in memory and what is left in them does not change for those still free. */
  lemma CachesRest(s: B.Fs, u: B.Fs, t: Tree)
    requires B.Shape(s) && B.Shape(u) && |u.free| == |s.free| && Lists(s.free, t.free) && t.free != [] && Caches(s, t)
    requires forall b :: 0 <= b < |s.free| && b != t.free[0] ==> u.mapped[b] == s.mapped[b] && u.words[b] == s.words[b]
    ensures Caches(u, t.(free := t.free[1..]))
  {
    forall b | b in t.free[1..] ensures b in t.free && b != t.free[0] { RestIn(t.free, b); }
  }

  /** alloc_block is taking the head of the free list, or fails for the same reason. */
  lemma AllocLink(s: B.Fs, t: Tree, noMem: bool)
    requires B.Shape(s) && Lists(s.free, t.free) && Caches(s, t)
    requires noMem <==> t.free != [] && t.free[0] in t.nopage
    ensures AllocCode(t, 0) == NoDisk ==> B.AllocBlock(s, noMem) == (s, B.NoDisk)
    ensures AllocCode(t, 0) == NoMem ==> B.AllocBlock(s, noMem) == (s, B.NoMem)
    ensures AllocCode(t, 0) == Ok ==>
              var (u, x) := B.AllocBlock(s, noMem);
              && B.Shape(u) && u.files == s.files && |u.free| == |s.free|
              && t.free != [] && x == B.Block(t.free[0]) && t.free[0] < |s.free| && s.free[t.free[0]]
              && u.free == s.free[t.free[0] := false]
              && (forall b :: 0 <= b < |s.words| && b != t.free[0] ==> u.words[b] == s.words[b] && u.mapped[b] == s.mapped[b])
              && u.mapped[t.free[0]] && Nonzero(u.words[t.free[0]]) == Words(t, t.free[0])
              && Lists(u.free, t.free[1..])
    ensures AllocCode(t, 0) in {Ok, NoDisk, NoMem}
  {
    LowestIsFirst(s, t);
    if t.free != [] {
      assert t.free[0] in t.free;
      ListsRest(s.free, t.free);
    }
    hide B.FirstFree, Lists, B.Lowest;
  }

  // ---------- file_block_walk ----------

  /** The indirect block that is there is only read into memory. */
  lemma ReadLink(s: B.Fs, t: Tree, f: nat, r: Ref, i: nat, noMem: bool)
    requires Linked(s, t, f, r) && i < B.NINDIRECT && !NeedsInd(Get(t, r), i)
    ensures var (u, x) := B.Walk(s, f, i, true, noMem); x == B.Block(0) && B.Pointed(u, f, i) && Linked(u, t, f, r)
  {
    var u := B.Walk(s, f, i, true, noMem).0;
    assert u.words == s.words && u.files == s.files && u.free == s.free;
    forall k | 0 <= k < B.NINDIRECT ensures PointsAt(u, f, Get(t, r), k) { assert PointsAt(s, f, Get(t, r), k); }
    forall b | b in t.free && b < |s.free| && !s.mapped[b] ensures !u.mapped[b] {
      var k :| 0 <= k < |t.free| && t.free[k] == b;
    }
  }

  /** The pointers of a file whose indirect block is new. */
  lemma TakePoints(s: B.Fs, v: B.Fs, t: Tree, f: nat, r: Ref, i: nat)
    requires Linked(s, t, f, r) && !Get(t, r).ind && t.free != [] && i < B.NINDIRECT
    requires B.Shape(v) && 0 < t.free[0] < |v.words| == |s.words| && v.files == s.files[f := s.files[f].(indirect := t.free[0])]
    requires Nonzero(v.words[t.free[0]]) == Words(t, t.free[0])
    ensures Valid(TakeInd(t, r), r) && PointsAt(v, f, Get(TakeInd(t, r), r), i)
  {
    assert PointsAt(s, f, Get(t, r), i);
    TakeGets(t, r, r);
    assert i >= NDIRECT ==> (i in Nonzero(v.words[t.free[0]]) <==> v.words[t.free[0]][i] != 0);
    hide TakeInd;
  }

  /** The indirect block that is missing is taken, or is not to be had. */
  lemma TakeLink(s: B.Fs, t: Tree, f: nat, r: Ref, i: nat, noMem: bool)
    requires Linked(s, t, f, r) && i < B.NINDIRECT && NeedsInd(Get(t, r), i)
    requires noMem <==> t.free != [] && t.free[0] in t.nopage
    ensures AllocCode(t, 0) == NoDisk ==> B.Walk(s, f, i, true, noMem) == (s, B.NoDisk)
    ensures AllocCode(t, 0) == NoMem ==> B.Walk(s, f, i, true, noMem) == (s, B.NoMem)
    ensures AllocCode(t, 0) == Ok ==>
              var (u, x) := B.Walk(s, f, i, true, noMem);
              t.free != [] && x == B.Block(0) && B.Pointed(u, f, i) && Linked(u, TakeInd(t, r), f, r)
  {
    AllocLink(s, t, noMem);
    if AllocCode(t, 0) == Ok {
      var a := B.AllocBlock(s, noMem).0;
      var u := B.Walk(s, f, i, true, noMem).0;
      assert t.free[0] in t.free && t.free[0] >= B.FIRST;
      assert u == B.Fs(a.free, a.mapped[t.free[0] := true], a.words, s.files[f := s.files[f].(indirect := t.free[0])]);
      CachesRest(s, u, t);
      TakeGets(t, r, r);
      forall k | 0 <= k < B.NINDIRECT ensures PointsAt(u, f, Get(TakeInd(t, r), r), k) { TakePoints(s, u, t, f, r, k); }
      TakeRest(s, u, t, r);
      hide *;
      LinkedIs(u, TakeInd(t, r), f, r);
    }
  }

  lemma TakeRest(s: B.Fs, u: B.Fs, t: Tree, r: Ref)
    requires B.Shape(u) && Valid(t, r) && t.free != [] && Caches(u, t.(free := t.free[1..])) && Lists(u.free, t.free[1..])
    ensures Lists(u.free, TakeInd(t, r).free) && Caches(u, TakeInd(t, r))
  {}

  lemma LinkedIs(s: B.Fs, t: Tree, f: nat, r: Ref)
    requires B.Shape(s) && f < |s.files| && Valid(t, r) && Lists(s.free, t.free) && Caches(s, t)
    requires Get(t, r).ind <==> s.files[f].indirect != 0
    requires Get(t, r).ind ==> s.files[f].indirect < |s.free| && !s.free[s.files[f].indirect]
    requires forall i :: 0 <= i < B.NINDIRECT ==> PointsAt(s, f, Get(t, r), i)
    ensures Linked(s, t, f, r)
  {}

  // ---------- file_map_block ----------

  /** The pointers of a file that got a block at index n. */
  lemma FillPoints(s: B.Fs, u: B.Fs, t: Tree, f: nat, r: Ref, n: nat, i: nat)
    requires Linked(s, t, f, r) && !NeedsInd(Get(t, r), n) && n < B.NINDIRECT && i < B.NINDIRECT && t.free != []
    requires n !in Get(t, r).blocks && n !in Get(t, r).stray && 0 < t.free[0] < |s.free| && s.free[t.free[0]]
    requires B.Shape(u) && |u.words| == |s.words| && u.files == s.files
    requires forall b :: 0 <= b < |s.words| && b != t.free[0] ==> u.words[b] == s.words[b]
    ensures B.Pointed(u, f, n)
    ensures var v := B.SetPtr(u, f, n, t.free[0]);
            B.Shape(v) && |v.files| == |s.files| && v.free == u.free && v.mapped == u.mapped
            && v.files[f].indirect == s.files[f].indirect
            && Valid(Fill(t, r, n), r) && PointsAt(v, f, Get(Fill(t, r, n), r), i)
  {
    assert PointsAt(s, f, Get(t, r), i) && PointsAt(s, f, Get(t, r), n);
    FillGets(t, r, n, r);
    hide Fill, Lists, Caches;
  }

  /** A new data block touches no free block's contents. */
  lemma FillCaches(u: B.Fs, t: Tree, f: nat, r: Ref, n: nat)
    requires B.Pointed(u, f, n) && Valid(t, r) && t.free != [] && Lists(u.free, t.free[1..]) && Caches(u, t.(free := t.free[1..]))
    requires n >= NDIRECT ==> u.files[f].indirect < |u.free| && !u.free[u.files[f].indirect]
    ensures var v := B.SetPtr(u, f, n, t.free[0]);
            B.Shape(v) && Lists(v.free, Fill(t, r, n).free) && Caches(v, Fill(t, r, n))
  {
    var v := B.SetPtr(u, f, n, t.free[0]);
    assert Fill(t, r, n).free == t.free[1..] && Fill(t, r, n).cached == t.cached;
    forall b | b in t.free[1..] && b < |u.free| ensures v.words[b] == u.words[b] {
      var k :| 0 <= k < |t.free[1..]| && t.free[1..][k] == b;
      assert u.free[b];
    }
    hide Fill;
  }

  lemma AllocPointer(s: B.Fs, t: Tree, f: nat, r: Ref, n: nat, noMem: bool)
    requires Linked(s, t, f, r) && !NeedsInd(Get(t, r), n) && n < B.NINDIRECT && AllocCode(t, 0) == Ok
    requires n !in Get(t, r).blocks && n !in Get(t, r).stray
    requires noMem <==> t.free != [] && t.free[0] in t.nopage
    ensures var (u, x) := B.AllocBlock(s, noMem);
            && t.free != [] && x == B.Block(t.free[0]) && B.Pointed(u, f, n)
            && Linked(B.SetPtr(u, f, n, t.free[0]), Fill(t, r, n), f, r)
  {
    AllocLink(s, t, noMem);
    var u := B.AllocBlock(s, noMem).0;
    assert t.free[0] in t.free && t.free[0] >= B.FIRST;
    CachesRest(s, u, t);
    FillPoints(s, u, t, f, r, n, n);
    FillCaches(u, t, f, r, n);
    FillGets(t, r, n, r);
    var v := B.SetPtr(u, f, n, t.free[0]);
    forall i | 0 <= i < B.NINDIRECT ensures PointsAt(v, f, Get(Fill(t, r, n), r), i) { FillPoints(s, u, t, f, r, n, i); }
    assert Get(t, r).ind ==> s.files[f].indirect != t.free[0];
    hide B.AllocBlock, B.SetPtr, Fill, PointsAt, Lists, Caches;
    LinkedIs(v, Fill(t, r, n), f, r);
  }

  /** The same outcome; a left-over pointer gives some block. */
  predicate Agrees(e: Code, b: nat, x: B.Result) {
    match e
    case Ok => x == B.Block(b)
    case Stray => x.Block?
    case NoDisk => x == B.NoDisk
    case NoMem => x == B.NoMem
    case Inval => x == B.Inval
    case _ => false
  }

  /** The second half of file_map_block. */
  function Rest(s: B.Fs, f: nat, n: nat, noMem: bool): (B.Fs, B.Result)
    requires B.Pointed(s, f, n)
  {
    if B.Val(s, B.Ptr(f, n)) != 0 then (s, B.Block(B.Val(s, B.Ptr(f, n))))
    else
      B.AllocPoints(s, f, n, noMem);
      var (u, r) := B.AllocBlock(s, noMem);
      if r.Block? then (B.SetPtr(u, f, n, r.b), r) else (u, r)
  }

  lemma RestLink(s: B.Fs, t: Tree, f: nat, r: Ref, n: nat, noMem: bool)
    requires Linked(s, t, f, r) && !NeedsInd(Get(t, r), n) && n < B.NINDIRECT && B.Pointed(s, f, n)
    requires noMem <==> t.free != [] && t.free[0] in t.nopage
    ensures var (u, x) := Rest(s, f, n, noMem); var (v, e, b) := AtPointer(t, r, n);
            Linked(u, v, f, r) && Agrees(e, b, x)
  {
    assert PointsAt(s, f, Get(t, r), n);
    if n !in Get(t, r).blocks && n !in Get(t, r).stray {
      B.AllocPoints(s, f, n, noMem);
      AllocLink(s, t, noMem);
      if AllocCode(t, 0) == Ok { AllocPointer(s, t, f, r, n, noMem); }
    }
    hide B.AllocBlock, B.SetPtr, Fill, Linked, PointsAt;
  }

  lemma MapIs(s: B.Fs, f: nat, n: nat, noMem0: bool, noMem1: bool)
    requires B.Shape(s) && f < |s.files|
    ensures var (u, x) := B.Walk(s, f, n, true, noMem0);
            B.MapBlock(s, f, n, true, noMem0, noMem1)
            == if x.Block? && B.Pointed(u, f, n) then Rest(u, f, n, noMem1) else (u, x)
  {
    var (u, x) := B.Walk(s, f, n, true, noMem0);
    if x.Block? && B.Pointed(u, f, n) { B.AllocPoints(u, f, n, noMem1); }
    hide B.Walk, B.AllocBlock;
  }

  /** file_get_block on the tree is file_map_block on the pointers: the same outcome, NoDisk and NoMem
      included, and structure and file stay linked, whichever of the two blocks it may need is not to
      be had. */
  lemma GetBlockIsMapBlock(s: B.Fs, t: Tree, f: nat, r: Ref, n: nat, noMem0: bool, noMem1: bool)
    requires Linked(s, t, f, r)
    requires noMem0 <==> t.free != [] && t.free[0] in t.nopage
    requires noMem1 <==> var k := if NeedsInd(Get(t, r), n) then 1 else 0; k < |t.free| && t.free[k] in t.nopage
    ensures var (u, x) := B.MapBlock(s, f, n, true, noMem0, noMem1); var (v, e, b) := GetBlock(t, r, n);
            Linked(u, v, f, r) && Agrees(e, b, x)
  {
    MapIs(s, f, n, noMem0, noMem1);
    if n < MAXBLOCKS {
      if NeedsInd(Get(t, r), n) {
        TakeLink(s, t, f, r, n, noMem0);
        if AllocCode(t, 0) == Ok {
          TakeGets(t, r, r);
          assert TakeInd(t, r).free == t.free[1..] && TakeInd(t, r).nopage == t.nopage;
          RestLink(B.Walk(s, f, n, true, noMem0).0, TakeInd(t, r), f, r, n, noMem1);
        }
      } else {
        ReadLink(s, t, f, r, n, noMem0);
        RestLink(B.Walk(s, f, n, true, noMem0).0, t, f, r, n, noMem1);
      }
    }
    hide B.MapBlock, Rest, AtPointer, Linked, TakeInd;
  }
}
