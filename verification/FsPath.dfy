/** Paths: walk_path (fs/fs.c) against a pure meaning of paths. */
module FsPath {
  import opened Wrappers
  import opened FsTree

  /** Length of the leading part of a path without a slash. */
  function WordLen(p: string): (n: nat)
    ensures n <= |p| && (n < |p| ==> p[n] == '/') && forall i :: 0 <= i < n ==> p[i] != '/'
  {
    if p == "" || p[0] == '/' then 0 else 1 + WordLen(p[1..])
  }

  /** The components of a path: its longest parts without a slash, in order. */
  function Components(p: string): (cs: seq<string>)
    ensures forall i :: 0 <= i < |cs| ==> cs[i] != "" && '/' !in cs[i]
    decreases |p|
  {
    if p == "" then []
    else if p[0] == '/' then Components(p[1..])
    else [p[..WordLen(p)]] + Components(p[WordLen(p)..])
  }

  lemma {:induction false} WordLenAppend(a: string, b: string)
    ensures WordLen(a + "/" + b) == WordLen(a)
  {
    if a != "" && a[0] != '/' {
      assert (a + "/" + b)[1..] == a[1..] + "/" + b;
      WordLenAppend(a[1..], b);
    } else if a == "" {
      assert (a + "/" + b)[0] == '/';
    }
  }

  lemma FirstWord(p: string)
    requires p != "" && p[0] != '/'
    ensures 0 < WordLen(p) && Components(p) == [p[..WordLen(p)]] + Components(p[WordLen(p)..])
  {}

  /** A slash separates: the components of a/b are those of a and then those of b, however many
      slashes a ends or b begins with. */
  lemma {:induction false} ComponentsJoin(a: string, b: string)
    ensures Components(a + "/" + b) == Components(a) + Components(b)
    decreases |a|
  {
    var p := a + "/" + b;
    if a == "" {
      assert p[1..] == b;
    } else if a[0] == '/' {
      assert p[1..] == a[1..] + "/" + b;
      ComponentsJoin(a[1..], b);
    } else {
      assert p[0] == a[0];
      hide Components, WordLen;
      FirstWord(a);
      FirstWord(p);
      WordLenAppend(a, b);
      var n := WordLen(a);
      assert p[..n] == a[..n];
      assert p[n..] == a[n..] + "/" + b;
      ComponentsJoin(a[n..], b);
    }
  }

  /** A single component is itself. */
  lemma {:induction false} ComponentsWord(w: string)
    requires w != "" && '/' !in w
    ensures Components(w) == [w]
  {
    if WordLen(w) < |w| { assert false; }
    assert w[..|w|] == w && w[|w|..] == "";
    assert Components(w[|w|..]) == [];
  }

  // ---------- walking ----------

  /** What walk_path returns through its result, *pdir, *pfile and lastelem. */
  datatype Walked = Walked(res: Code, pdir: Option<Ref>, pfile: Option<Ref>, last: Option<string>)

  function Failed(e: Code): Walked { Walked(e, None, None, None) }

  /** walk_path from `file`, having come from `dir`, over the remaining components. */
  function WalkFrom(t: Tree, dir: Option<Ref>, file: Ref, cs: seq<string>): (Tree, Walked)
    requires Inv(t) && Live(t, file)
    decreases |cs|
  {
    if cs == [] then (t, Walked(Ok, dir, Some(file), None))
    else if |cs[0]| >= MAXNAMELEN then (t, Failed(BadPath))
    else if !Get(t, file).dir then (t, Failed(NotFound))
    else
      LookupExtends(t, file, cs[0]);
      var (u, e, q) := DirLookup(t, file, cs[0]);
      if e == Ok then WalkFrom(u, Some(file), q, cs[1..])
      else if e == NotFound && |cs| == 1 then (u, Walked(NotFound, Some(file), None, Some(cs[0])))
      else (u, Failed(e))
  }

  /** The pure meaning of a path: fold the directory entries of one tree over the components. */
  ghost function Resolve(t: Tree, dir: Option<Ref>, file: Ref, cs: seq<string>): Walked
    requires Inv(t) && Valid(t, file)
    decreases |cs|
  {
    if cs == [] then Walked(Ok, dir, Some(file), None)
    else if |cs[0]| >= MAXNAMELEN then Failed(BadPath)
    else if !Get(t, file).dir then Failed(NotFound)
    else
      match Entry(t, file, cs[0])
      case Some(q) => if Valid(t, q) then Resolve(t, Some(file), q, cs[1..]) else Failed(NotFound)
      case None => if |cs| == 1 then Walked(NotFound, Some(file), None, Some(cs[0])) else Failed(NotFound)
  }

  ghost predicate HoleFree(t: Tree) {
    forall r :: Live(t, r) && Get(t, r).dir ==> NoHoles(t, r, 0, Blocks(Get(t, r)))
  }

  /** No free block holds a component of the path. */
  predicate Clear(t: Tree, cs: seq<string>) {
    forall i, b :: 0 <= i < |cs| && b in t.free ==> !Holds(t, b, cs[i])
  }

  lemma {:induction false} ResolveExtends(t: Tree, u: Tree, dir: Option<Ref>, file: Ref, cs: seq<string>)
    requires Inv(t) && Inv(u) && Extends(t, u) && Valid(t, file) && Clear(t, cs)
    ensures Valid(u, file) && Resolve(u, dir, file, cs) == Resolve(t, dir, file, cs)
    decreases |cs|
  {
    assert Kept(t, u, file);
    if cs != [] && Get(t, file).dir {
      EntryExtends(t, u, file, cs[0]);
      var q := Entry(t, file, cs[0]);
      if q.Some? {
        EntryValid(t, file, cs[0]);
        assert forall i :: 0 <= i < |cs| - 1 ==> cs[1..][i] == cs[i + 1];
        ResolveExtends(t, u, Some(file), q.value, cs[1..]);
      }
    }
  }

  /** One component of a walk. */
  lemma WalkStep(t: Tree, dir: Option<Ref>, file: Ref, cs: seq<string>)
    requires Inv(t) && Live(t, file) && cs != [] && |cs[0]| < MAXNAMELEN && Get(t, file).dir
    ensures var (u, e, q) := DirLookup(t, file, cs[0]);
            && Inv(u) && Extends(t, u) && Live(u, file) && Get(u, file).dir
            && (e == Ok ==>
                  && Live(u, q) && Entry(u, file, cs[0]) == Some(q) && Firm(u, file, cs[0], 0, Blocks(Get(u, file)))
                  && WalkFrom(t, dir, file, cs) == WalkFrom(u, Some(file), q, cs[1..]))
            && (e == NotFound ==>
                  && Entry(u, file, cs[0]) == None
                  && WalkFrom(t, dir, file, cs)
                     == (u, if |cs| == 1 then Walked(NotFound, Some(file), None, Some(cs[0])) else Failed(NotFound)))
            && (e != Ok && e != NotFound ==>
                  e in {NoDisk, NoMem, Inval, Stray} && WalkFrom(t, dir, file, cs) == (u, Failed(e)))
  {
    LookupExtends(t, file, cs[0]);
    LookupFinds(t, file, cs[0]);
    SearchExtends(t, file, cs[0], 0, Blocks(Get(t, file)));
    assert Kept(t, DirLookup(t, file, cs[0]).0, file);
    hide Inv, Extends, DirLookup, Entry, SearchFrom, Firm;
  }

  /** The codes with which a lookup ends at a hole. */
  predicate Stopped(w: Walked) { w.res in {NoDisk, NoMem, Inval, Stray} && w == Failed(w.res) }

  /** walk_path is the fold over the directories as it leaves them: unless it stops at a hole it
      cannot fill, or a left-over pointer, its result, pdir, pfile and lastelem are those of the path.
      All it changes is to fill holes. */
  lemma {:induction false} WalkResolves(t: Tree, dir: Option<Ref>, file: Ref, cs: seq<string>)
    requires Inv(t) && Live(t, file)
    ensures var (u, w) := WalkFrom(t, dir, file, cs);
            && Inv(u) && Valid(u, file) && Extends(t, u)
            && (w == Resolve(u, dir, file, cs) || Stopped(w))
    decreases |cs|
  {
    if cs == [] || |cs[0]| >= MAXNAMELEN || !Get(t, file).dir {
      ExtendsSelf(t);
    } else {
      WalkStep(t, dir, file, cs);
      var (u, e, q) := DirLookup(t, file, cs[0]);
      if e == Ok {
        WalkResolves(u, Some(file), q, cs[1..]);
        var v := WalkFrom(u, Some(file), q, cs[1..]).0;
        WalkStays(u, v, file, cs[0]);
        hide Inv, Extends, DirLookup, WalkFrom, Entry, Firm;
        ExtendsTransitive(t, u, v);
      }
    }
  }

  /** What a lookup found stays what the directory has, whatever holes are filled after it. */
  lemma WalkStays(u: Tree, v: Tree, r: Ref, name: string)
    requires Inv(u) && Inv(v) && Extends(u, v) && Valid(u, r) && Firm(u, r, name, 0, Blocks(Get(u, r)))
    ensures Valid(v, r) && Get(v, r).dir == Get(u, r).dir && Entry(v, r, name) == Entry(u, r, name)
    ensures forall q :: Valid(u, q) ==> Valid(v, q)
  {
    assert Kept(u, v, r);
    FirmExtends(u, v, r, name, 0, Blocks(Get(u, r)));
    forall q | Valid(u, q) ensures Valid(v, q) { assert Kept(u, v, q); }
  }

  /** When no free block holds a component of the path, that is the path in the tree as it was. */
  lemma WalkAsBefore(t: Tree, dir: Option<Ref>, file: Ref, cs: seq<string>)
    requires Inv(t) && Live(t, file) && Clear(t, cs)
    ensures var w := WalkFrom(t, dir, file, cs).1; w == Resolve(t, dir, file, cs) || Stopped(w)
  {
    WalkResolves(t, dir, file, cs);
    ResolveExtends(t, WalkFrom(t, dir, file, cs).0, dir, file, cs);
  }

  /** In a tree without holes walk_path always is the fold, and changes nothing. */
  lemma {:induction false} WalkNoHoles(t: Tree, dir: Option<Ref>, file: Ref, cs: seq<string>)
    requires Inv(t) && Live(t, file) && HoleFree(t)
    ensures WalkFrom(t, dir, file, cs) == (t, Resolve(t, dir, file, cs))
    decreases |cs|
  {
    if cs != [] && |cs[0]| < MAXNAMELEN && Get(t, file).dir {
      LookupFinds(t, file, cs[0]);
      WalkStep(t, dir, file, cs);
      var (u, e, q) := DirLookup(t, file, cs[0]);
      hide Inv, DirLookup, Entry, WalkFrom;
      if e == Ok { WalkNoHoles(t, Some(file), q, cs[1..]); }
    }
  }

  // ---------- walks that find what was there ----------

  /** What is found in blocks that were in use before was found before. */
  lemma {:induction false} FindBack(t: Tree, u: Tree, r: Ref, name: string, i: nat, n: nat)
    requires Inv(t) && Inv(u) && Extends(t, u) && Valid(t, r) && Valid(u, r)
    requires var q := Find(u, r, name, i, n); q.Some? ==> q.value.Slot? && q.value.b !in t.free
    ensures Find(t, r, name, i, n) == Find(u, r, name, i, n)
    decreases n - i
  {
    assert Kept(t, u, r) && Gained(t, u, r);
    if i < n {
      assert BlockOk(t, r, i) && BlockOk(u, r, i);
      if i in Get(u, r).blocks {
        ScanKept(t, u, Get(u, r).blocks[i], name);
        if Scan(u, Get(u, r).blocks[i], name, 0) == FILE2BLK { FindBack(t, u, r, name, i + 1, n); }
      } else {
        FindBack(t, u, r, name, i + 1, n);
      }
    }
  }

  /** A structure in a block that was free leads only to others like it. */
  lemma {:induction false} FindLost(t: Tree, u: Tree, r: Ref, name: string, i: nat, n: nat)
    requires Inv(t) && Inv(u) && Extends(t, u) && Valid(t, r) && Valid(u, r) && r.Slot? && r.b in t.free
    ensures var q := Find(u, r, name, i, n); q.Some? ==> q.value.Slot? && q.value.b in t.free
    decreases n - i
  {
    var k :| 0 <= k < |t.free| && t.free[k] == r.b;
    assert FreeOk(t, t.free[k]);
    assert Gained(t, u, r);
    if i < n {
      assert BlockOk(u, r, i);
      if i !in Get(u, r).blocks || Scan(u, Get(u, r).blocks[i], name, 0) == FILE2BLK { FindLost(t, u, r, name, i + 1, n); }
    }
  }

  lemma {:induction false} WalkLost(t0: Tree, t: Tree, dir: Option<Ref>, file: Ref, cs: seq<string>)
    requires Inv(t0) && Inv(t) && Extends(t0, t) && Live(t, file) && Valid(t0, file) && file.Slot? && file.b in t0.free
    ensures !Old(t0, WalkFrom(t, dir, file, cs).1)
    decreases |cs|
  {
    if cs != [] && |cs[0]| < MAXNAMELEN && Get(t, file).dir {
      WalkStep(t, dir, file, cs);
      var (u, e, q) := DirLookup(t, file, cs[0]);
      ExtendsTransitive(t0, t, u);
      if e == Ok {
        FindLost(t0, u, file, cs[0], 0, Blocks(Get(u, file)));
        hide Inv, DirLookup, Extends, WalkFrom, Find;
        WalkLost(t0, u, Some(file), q, cs[1..]);
      }
    }
  }

  /** What the walk points to, the structure or the directory where it is missing, was there. */
  predicate Old(t: Tree, w: Walked) {
    if w.pfile.Some? then Live(t, w.pfile.value) else w.pdir.Some? && Live(t, w.pdir.value)
  }

  lemma {:induction false} WalkOld(t0: Tree, t: Tree, dir: Option<Ref>, file: Ref, cs: seq<string>)
    requires Inv(t0) && Inv(t) && Extends(t0, t) && Live(t, file) && Live(t0, file)
    requires Old(t0, WalkFrom(t, dir, file, cs).1)
    ensures WalkFrom(t, dir, file, cs).1 == Resolve(t0, dir, file, cs)
    decreases |cs|
  {
    assert Kept(t0, t, file);
    if cs != [] && |cs[0]| < MAXNAMELEN && Get(t, file).dir {
      WalkStep(t, dir, file, cs);
      var (u, e, q) := DirLookup(t, file, cs[0]);
      ExtendsTransitive(t0, t, u);
      assert Kept(t0, u, file);
      if e == Ok {
        EntryValid(u, file, cs[0]);
        if q.b in t0.free {
          assert Valid(t0, q);
          WalkLost(t0, u, Some(file), q, cs[1..]);
        } else {
          FindBack(t0, u, file, cs[0], 0, Blocks(Get(u, file)));
          EntryValid(t0, file, cs[0]);
          WalkOld(t0, u, Some(file), q, cs[1..]);
        }
      } else if e == NotFound {
        FindBack(t0, u, file, cs[0], 0, Blocks(Get(u, file)));
      }
    }
  }

  /** What one more component does: the path must have led to a file, the component must be shorter than
      128 characters, the file must be a directory, and then it is what the entry leads to; a missing
      entry gives the directory and the name. */
  lemma {:induction false} ResolveSnoc(t: Tree, dir: Option<Ref>, file: Ref, cs: seq<string>, c: string)
    requires Inv(t) && Valid(t, file)
    ensures Resolve(t, dir, file, []) == Walked(Ok, dir, Some(file), None)
    ensures var w := Resolve(t, dir, file, cs);
            var x := Resolve(t, dir, file, cs + [c]);
            if w.res != Ok then x == Walked(w.res, None, None, None)
            else
              && w.pfile.Some? && Valid(t, w.pfile.value)
              && var d := w.pfile.value;
                 if |c| >= 128 then x == Walked(BadPath, None, None, None)
                 else if !Get(t, d).dir then x == Walked(NotFound, None, None, None)
                 else if Entry(t, d, c) == None then x == Walked(NotFound, Some(d), None, Some(c))
                 else x == Walked(Ok, Some(d), Entry(t, d, c), None)
    decreases |cs|
  {
    if cs == [] {
      assert ([] + [c])[1..] == [];
      if Entry(t, file, c).Some? { EntryValid(t, file, c); }
    } else if |cs[0]| < MAXNAMELEN && Get(t, file).dir && Entry(t, file, cs[0]).Some? {
      assert (cs + [c])[1..] == cs[1..] + [c];
      EntryValid(t, file, cs[0]);
      ResolveSnoc(t, Some(file), Entry(t, file, cs[0]).value, cs[1..], c);
    }
  }

  lemma {:induction false} ResolveOld(t: Tree, dir: Option<Ref>, file: Ref, cs: seq<string>)
    requires Inv(t) && Live(t, file)
    requires var w := Resolve(t, dir, file, cs); w.pfile.Some? || w.pdir.Some?
    ensures Old(t, Resolve(t, dir, file, cs))
    decreases |cs|
  {
    if cs != [] && |cs[0]| < MAXNAMELEN && Get(t, file).dir && Entry(t, file, cs[0]).Some? {
      EntryValid(t, file, cs[0]);
      ResolveOld(t, Some(file), Entry(t, file, cs[0]).value, cs[1..]);
    }
  }

  /** A walk that finds the structure, or the directory in which it is missing, gives the path in the
      tree as it was, exactly if what it points to is not in a block that was free. */
  lemma WalkIsOld(t: Tree, dir: Option<Ref>, file: Ref, cs: seq<string>)
    requires Inv(t) && Live(t, file)
    requires var w := WalkFrom(t, dir, file, cs).1; w.pfile.Some? || w.pdir.Some?
    ensures WalkFrom(t, dir, file, cs).1 == Resolve(t, dir, file, cs) <==> Old(t, WalkFrom(t, dir, file, cs).1)
  {
    ExtendsSelf(t);
    if Old(t, WalkFrom(t, dir, file, cs).1) {
      WalkOld(t, t, dir, file, cs);
    } else if WalkFrom(t, dir, file, cs).1 == Resolve(t, dir, file, cs) {
      ResolveOld(t, dir, file, cs);
    }
  }
}
