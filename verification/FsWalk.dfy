/** The directory and path operations of fs/fs.c as the file server runs them: scanning loops
    over blocks, slots and characters, on structures changed in place. Each is proved equal to
    its counterpart on values. */
module FsWalk {
  import opened Wrappers
  import opened FsTree
  import opened FsPath
  import opened FsCreate

  /** skip_slash: the first position from i on that does not hold a slash. */
  method SkipSlash(path: string, i: nat) returns (j: nat)
    requires i <= |path|
    ensures i <= j <= |path| && (j < |path| ==> path[j] != '/')
    ensures Components(path[j..]) == Components(path[i..])
  {
    j := i;
    while j < |path| && path[j] == '/'
      invariant i <= j <= |path| && Components(path[j..]) == Components(path[i..])
    {
      assert path[j..][1..] == path[j + 1..];
      j := j + 1;
    }
  }

  lemma WordLenIs(s: string, n: nat)
    requires n <= |s| && (n < |s| ==> s[n] == '/') && forall k :: 0 <= k < n ==> s[k] != '/'
    ensures WordLen(s) == n
  {
    var m := WordLen(s);
    if m < n { assert false; }
    if n < m { assert false; }
  }

  /** The scan for the end of a component finds the first of Components. */
  method EndOfWord(path: string, i: nat) returns (j: nat)
    requires i < |path| && path[i] != '/'
    ensures i < j <= |path| && Components(path[i..]) == [path[i..j]] + Components(path[j..])
  {
    j := i;
    while j < |path| && path[j] != '/'
      invariant i <= j <= |path| && forall k :: i <= k < j ==> path[k] != '/'
    {
      j := j + 1;
    }
    WordLenIs(path[i..], j - i);
    assert path[i..][..j - i] == path[i..j] && path[i..][j - i..] == path[j..];
  }

  lemma DirAllocIs(t: Tree, dir: Ref)
    requires Inv(t) && Live(t, dir)
    ensures var n := Get(t, dir).size / BY2BLK; var (u, e, q) := SearchFrom(t, dir, "", 0, n);
            if e != NotFound then DirAlloc(t, dir) == (u, e, q)
            else Inv(u) && Live(u, dir) && Inv(Grow(u, dir)) && Live(Grow(u, dir), dir) &&
                 var (v, e1, b) := GetBlock(Grow(u, dir), dir, n);
                 DirAlloc(t, dir) == (v, e1, if e1 == Ok then Slot(b, 0) else Root)
  {
    SearchExtends(t, dir, "", 0, Get(t, dir).size / BY2BLK);
    var (u, e, q) := SearchFrom(t, dir, "", 0, Get(t, dir).size / BY2BLK);
    GrowInv(u, dir);
    hide Inv, SearchFrom, GetBlock, Grow, Live;
  }

  class Server {
    var t: Tree

    constructor (tree: Tree)
      ensures t == tree
    {
      t := tree;
    }

    /** alloc_block: the bit is set again when map_block fails. */
    method AllocBlock() returns (e: Code, b: nat)
      modifies this
      ensures e == AllocCode(old(t), 0)
      ensures if e == Ok then old(t).free != [] && b == old(t).free[0] && t == old(t).(free := old(t).free[1..])
              else t == old(t)
    {
      if t.free == [] { return NoDisk, 0; }
      b := t.free[0];
      t := t.(free := t.free[1..]);
      if b !in t.cached && b in t.nopage {
        t := t.(free := [b] + t.free);
        return NoMem, 0;
      }
      e := Ok;
    }

    /** file_block_walk, always allocating: the place for the pointer. */
    method FileBlockWalk(r: Ref, i: nat) returns (e: Code)
      requires Valid(t, r)
      modifies this
      ensures e == if i >= MAXBLOCKS then Inval else if NeedsInd(Get(old(t), r), i) then AllocCode(old(t), 0) else Ok
      ensures t == (if i < MAXBLOCKS && NeedsInd(Get(old(t), r), i) && e == Ok then TakeInd(old(t), r) else old(t))
    {
      if i >= MAXBLOCKS { return Inval; }
      e := Ok;
      if NeedsInd(Get(t, r), i) {
        var b;
        e, b := AllocBlock();
        if e != Ok { return; }
        t := t.(inds := t.inds + {b});
        t := Set(t, r, Get(t, r).(ind := true, stray := Get(t, r).stray + Words(t, b)));
      }
    }

    /** file_get_block, always allocating. */
    method FileGetBlock(r: Ref, i: nat) returns (e: Code, b: nat)
      requires Inv(t) && Live(t, r)
      modifies this
      ensures (t, e, b) == GetBlock(old(t), r, i)
      ensures Inv(t) && Live(t, r) && (e == Ok ==> b < |t.slots| && |t.slots[b]| == FILE2BLK)
    {
      GetBlockInv(t, r, i);
      hide Inv;
      e := FileBlockWalk(r, i);
      if e != Ok { return e, 0; }
      var n := Get(t, r);
      if i in n.blocks { return Ok, n.blocks[i]; }
      if i in n.stray { return Stray, 0; }
      e, b := AllocBlock();
      if e != Ok { return e, 0; }
      t := Set(t, r, n.(blocks := n.blocks[i := b]));
    }

    /** The loop over the slots of one block. */
    method ScanBlock(b: nat, name: string) returns (k: nat)
      requires b < |t.slots| && |t.slots[b]| == FILE2BLK
      ensures k == Scan(t, b, name, 0)
    {
      k := 0;
      while k < FILE2BLK && t.slots[b][k].name != name
        invariant k <= FILE2BLK && Scan(t, b, name, 0) == Scan(t, b, name, k)
      {
        k := k + 1;
      }
    }

    /** The loop over blocks that dir_lookup and dir_alloc_file share. */
    method Search(r: Ref, name: string, n: nat) returns (e: Code, q: Ref)
      requires Inv(t) && Live(t, r)
      modifies this
      ensures (t, e, q) == SearchFrom(old(t), r, name, 0, n)
      ensures Inv(t) && Live(t, r)
    {
      var i: nat := 0;
      while i < n
        invariant Inv(t) && Live(t, r)
        invariant i <= n && SearchFrom(t, r, name, i, n) == SearchFrom(old(t), r, name, 0, n)
      {
        SearchRound(t, r, name, i, n);
        hide SearchFrom, Inv;
        var b;
        e, b := FileGetBlock(r, i);
        if e != Ok { return e, Root; }
        var k := ScanBlock(b, name);
        if k < FILE2BLK { return Ok, Slot(b, k); }
        i := i + 1;
      }
      e, q := NotFound, Root;
    }

    /** dir_lookup. */
    method Lookup(r: Ref, name: string) returns (e: Code, q: Ref)
      requires Inv(t) && Live(t, r)
      modifies this
      ensures (t, e, q) == DirLookup(old(t), r, name)
      ensures Inv(t) && Live(t, r)
    {
      e, q := Search(r, name, Get(t, r).size / BY2BLK);
    }

    /** The end of dir_alloc_file, when no slot is unused: one more block. */
    method GrowDir(dir: Ref, n: nat) returns (e: Code, q: Ref)
      requires Inv(t) && Live(t, dir)
      requires Inv(Grow(t, dir)) && Live(Grow(t, dir), dir)
      modifies this
      ensures var (v, e1, b) := GetBlock(Grow(old(t), dir), dir, n); (t, e, q) == (v, e1, if e1 == Ok then Slot(b, 0) else Root)
    {
      hide Inv, GetBlock;
      t := Set(t, dir, Get(t, dir).(size := Get(t, dir).size + BY2BLK));
      var b;
      e, b := FileGetBlock(dir, n);
      q := if e == Ok then Slot(b, 0) else Root;
    }

    /** dir_alloc_file. */
    method DirAllocFile(dir: Ref) returns (e: Code, q: Ref)
      requires Inv(t) && Live(t, dir)
      modifies this
      ensures (t, e, q) == DirAlloc(old(t), dir)
    {
      DirAllocIs(t, dir);
      hide Inv, SearchFrom, GetBlock, DirAlloc, Grow, Live;
      var n := Get(t, dir).size / BY2BLK;
      e, q := Search(dir, "", n);
      if e == NotFound {
        GrowInv(t, dir);
        e, q := GrowDir(dir, n);
      }
    }

    /** walk_path. */
    method WalkPath(path: string) returns (w: Walked)
      requires Inv(t)
      modifies this
      ensures (t, w) == WalkFrom(old(t), None, Root, Components(path))
    {
      var i := SkipSlash(path, 0);
      assert path[0..] == path;
      var file, dir := Root, None;
      while i < |path|
        invariant Inv(t) && Live(t, file)
        invariant i <= |path| && (i < |path| ==> path[i] != '/')
        invariant WalkFrom(t, dir, file, Components(path[i..])) == WalkFrom(old(t), None, Root, Components(path))
      {
        ghost var cs := Components(path[i..]);
        var p := i;
        i := EndOfWord(path, i);
        var name := path[p..i];
        assert cs[0] == name && cs[1..] == Components(path[i..]);
        if i - p >= MAXNAMELEN { return Failed(BadPath); }
        i := SkipSlash(path, i);
        if !Get(t, file).dir { return Failed(NotFound); }
        LookupExtends(t, file, name);
        ghost var was := t;
        var e, q := Lookup(file, name);
        if e != Ok {
          LastComponent(path, i);
          return if e == NotFound && i == |path| then Walked(NotFound, Some(file), None, Some(name)) else Failed(e);
        }
        assert WalkFrom(was, dir, file, cs) == WalkFrom(t, Some(file), q, cs[1..]);
        dir, file := Some(file), q;
      }
      assert path[i..] == "";
      w := Walked(Ok, dir, Some(file), None);
    }

    /** file_create. */
    method FileCreate(path: string) returns (e: Code, q: Ref)
      requires Inv(t)
      modifies this
      ensures (t, e, q) == Create(old(t), path)
    {
      WalkLive(t, None, Root, Components(path));
      var w := WalkPath(path);
      if w.res == Ok { return Exists, Root; }
      if w.res != NotFound || w.pdir == None || w.last == None { return w.res, Root; }
      DirAllocLive(t, w.pdir.value);
      e, q := DirAllocFile(w.pdir.value);
      if e == Stray { return Stray, Root; }
      if e != Ok { return w.res, Root; }
      t := Set(t, q, Get(t, q).(name := w.last.value));
    }
  }

  /** Past the slashes, the path is at its end exactly if no component is left. */
  lemma LastComponent(path: string, i: nat)
    requires i <= |path| && (i < |path| ==> path[i] != '/')
    ensures Components(path[i..]) == [] <==> i == |path|
  {}
}
