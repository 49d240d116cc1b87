/** Exactly when pipe() succeeds: two descriptors and enough free pages, counted before the call. */
module PipeOk {
  import opened Wrappers
  import opened Mmu
  import opened Pmap
  import opened MemCalls
  import opened PipeMake
  import opened PipeFail

  /** The page that a missing table costs. */
  function Lack(s: State, d: nat, x: nat): nat
    requires Shape(s)
  {
    if HasTable(s, d, x) then 0 else 1
  }

  /** The pages that pipe() takes: three of its own, one for each table that is not there yet. The table
      for the second data address may use the page that the first data page replaced. */
  predicate Suffices(s: State, d: nat, i: nat, j: nat)
    requires Shape(s)
  {
    |s.free| >= 3 + Lack(s, d, FDX) + Lack(s, d, FILEX + i)
                + if Frees(s, DataKey(d, i)) then 0 else Lack(s, d, FILEX + j)
  }

  lemma FreesMapped(s: State, k: Key)
    requires Inv(s)
    ensures Frees(s, k) ==> k in Flat(s) && HasTable(s, k.d, k.x)
  {
    PteEntry(s, k);
  }

  /** An allocation at one address: its success, its cost and what it leaves elsewhere. */
  lemma AllocStep(s: State, k: Key, o: Key)
    requires Inv(s) && k.d in s.dirs && k.x < UTOPX && k.t < NWORD && k != o
    ensures Shape(s)
    ensures var (r, c) := MemAlloc(s, k, SHARED);
            && Inv(r) && (c.Ok? <==> |s.free| >= 1 + Lack(s, k.d, k.x))
            && (c.Ok? ==>
                  && r.dirs == s.dirs && k in Flat(r)
                  && |r.free| == |s.free| - 1 - Lack(s, k.d, k.x) + (if Frees(s, k) then 1 else 0)
                  && forall x: nat :: HasTable(r, k.d, x) <==> HasTable(s, k.d, x) || x == k.x)
  {
    InvShape(s);
    PteEntry(s, k);
    MemAllocInv(s, k, SHARED);
    AllocFree(s, k, 0);
    if k in Flat(s) { FreesCount(s, k); } else { FreesMapped(s, k); }
    hide Inv, Flat, MemAlloc, HasTable, Frees, Entries;
  }

  /** An allocation at an address where nothing is mapped keeps the other addresses' references. */
  lemma AllocElsewhere(s: State, k: Key, o: Key)
    requires Inv(s) && k.d in s.dirs && k.x < UTOPX && k.t < NWORD && k != o && k !in Flat(s)
    requires MemAlloc(s, k, SHARED).1.Ok?
    ensures Shape(s) && Inv(MemAlloc(s, k, SHARED).0)
    ensures Frees(MemAlloc(s, k, SHARED).0, o) <==> Frees(s, o)
  {
    InvShape(s);
    MemAllocInv(s, k, SHARED);
    var r := MemAlloc(s, k, SHARED).0;
    FreesMapped(s, o);
    FreesMapped(r, o);
    if o in Flat(s) {
      PteEntry(s, o);
      NotFree(s, o);
      AllocFree(s, k, Flat(s)[o].pfn);
      hide Inv, Flat, MemAlloc, Frees;
      FreesAfter(s, r, o);
    }
  }

  lemma RestStops(a: State, d: nat, i: nat, j: nat)
    requires Inv(a) && d in a.dirs && i < MAXFD && j < MAXFD
    ensures Rest(a, d, i, j).1.Made? <==>
              && MemAlloc(a, FdKey(d, j), SHARED).1.Ok?
              && Inv(MemAlloc(a, FdKey(d, j), SHARED).0)
              && var b := MemAlloc(a, FdKey(d, j), SHARED).0;
              && MemAlloc(b, DataKey(d, i), SHARED).1.Ok?
              && Inv(MemAlloc(b, DataKey(d, i), SHARED).0)
              && MemMap(MemAlloc(b, DataKey(d, i), SHARED).0, DataKey(d, i), DataKey(d, j), SHARED).1.Ok?
  {
    hide Inv, Flat, MemAlloc, MemMap, MemUnmap, Err1, Err2, Err3;
    MemAllocInv(a, FdKey(d, j), SHARED);
    var (b, c1) := MemAlloc(a, FdKey(d, j), SHARED);
    if c1.Ok? { MemAllocInv(b, DataKey(d, i), SHARED); }
  }

  /** From the second descriptor on. */
  lemma RestMakesIff(a: State, d: nat, i: nat, j: nat)
    requires Inv(a) && d in a.dirs && i < j < MAXFD && Shape(a) && HasTable(a, d, FDX) && FdKey(d, j) !in Flat(a)
    ensures Rest(a, d, i, j).1.Made?
            <==> |a.free| >= 2 + Lack(a, d, FILEX + i) + if Frees(a, DataKey(d, i)) then 0 else Lack(a, d, FILEX + j)
  {
    var k := DataKey(d, i);
    RestStops(a, d, i, j);
    AllocStep(a, FdKey(d, j), k);
    FreesMapped(a, FdKey(d, j));
    hide *;
    var (b, c1) := MemAlloc(a, FdKey(d, j), SHARED);
    LackIs(a, d);
    if c1.Ok? {
      AllocElsewhere(a, FdKey(d, j), k);
      InvShape(b);
      LackAfter(a, b, d, FDX, i, j);
      RestFrom(b, d, i, j);
    }
  }

  /** From the data page on. */
  lemma RestFrom(b: State, d: nat, i: nat, j: nat)
    requires Inv(b) && Shape(b) && d in b.dirs && i < j < MAXFD
    ensures var (e, c) := MemAlloc(b, DataKey(d, i), SHARED);
            && Inv(e)
            && (c.Ok? && MemMap(e, DataKey(d, i), DataKey(d, j), SHARED).1.Ok?
                <==> |b.free| >= 1 + Lack(b, d, FILEX + i) + if Frees(b, DataKey(d, i)) then 0 else Lack(b, d, FILEX + j))
  {
    var k := DataKey(d, i);
    AllocStep(b, k, FdKey(d, j));
    FreesMapped(b, k);
    var (e, c) := MemAlloc(b, k, SHARED);
    hide *;
    if c.Ok? {
      InvShape(e);
      LastFails(e, d, i, j);
      LackAfter(b, e, d, FILEX + i, i, j);
      LackMapped(b, k);
    }
  }

  lemma LackMapped(b: State, k: Key)
    requires Inv(b) && Shape(b)
    ensures Frees(b, k) ==> Lack(b, k.d, k.x) == 0
  {
    FreesMapped(b, k);
  }

  lemma LackIs(s: State, d: nat)
    requires Shape(s) && HasTable(s, d, FDX)
    ensures Lack(s, d, FDX) == 0
  {}

  lemma LackAfter(s: State, r: State, d: nat, x: nat, i: nat, j: nat)
    requires Shape(s) && Shape(r) && i < j
    requires forall y: nat :: HasTable(r, d, y) <==> HasTable(s, d, y) || y == x
    ensures Lack(r, d, FILEX + j) == 0 <==> HasTable(r, d, FILEX + j)
    ensures x != FILEX + j ==> Lack(r, d, FILEX + j) == Lack(s, d, FILEX + j)
    ensures x != FILEX + i ==> Lack(r, d, FILEX + i) == Lack(s, d, FILEX + i)
    ensures Lack(r, d, FDX) <= Lack(s, d, FDX)
  {
    hide HasTable, Shape;
  }

  /** pipe() succeeds exactly if two of the first 31 descriptors are free and there are pages enough for
      what it takes, and then those two are the descriptors it makes. */
  lemma PipeMakes(s: State, d: nat)
    requires Inv(s) && d in s.dirs
    ensures Shape(s)
    ensures var i := FdFrom(s, d, 0);
            var j := if i.Some? then FdFrom(s, d, i.value + 1) else None;
            var r := Pipe(s, d).1;
            && (r.Made? <==> j.Some? && Suffices(s, d, i.value, j.value))
            && (r.Made? ==> r == Made(i.value, j.value))
  {
    hide Inv, Pipe, FdFrom, Suffices;
    InvShape(s);
    if FdFrom(s, d, 0).Some? { PipeMakesFrom(s, d, FdFrom(s, d, 0).value); } else { PipeNone(s, d); }
  }

  lemma PipeNone(s: State, d: nat)
    requires Inv(s) && d in s.dirs && FdFrom(s, d, 0) == None
    ensures Pipe(s, d).1 == Failed
  {
    hide Inv, MemAlloc, Rest, FdFrom;
  }

  lemma PipeMakesFrom(s: State, d: nat, i: nat)
    requires Inv(s) && d in s.dirs && FdFrom(s, d, 0) == Some(i)
    ensures Shape(s) && i + 1 < MAXFD
    ensures var j := FdFrom(s, d, i + 1);
            var r := Pipe(s, d).1;
            && (r.Made? <==> j.Some? && Suffices(s, d, i, j.value))
            && (r.Made? ==> r == Made(i, j.value))
  {
    hide Inv, Flat, MemAlloc, MemMap, MemUnmap, HasTable, Frees, Rest, FdFrom, Pipe, Shape, Suffices, Lack, Entries, At, Named;
    InvShape(s);
    FdUnmapped(s, d);
    PipeFirst(s, d, i);
    AllocStep(s, FdKey(d, i), DataKey(d, i));
    FdInserted(s, d, i);
    var (a, c) := MemAlloc(s, FdKey(d, i), SHARED);
    if c.Ok? {
      InvShape(a);
      SecondFd(s, a, d, i, Word(s.free[0], SHARED));
      if FdFrom(a, d, 0).Some? { PipeSecond(s, a, d, i); }
    } else {
      TooFew(s, d, i);
    }
  }

  lemma FdInserted(s: State, d: nat, i: nat)
    requires Inv(s) && d in s.dirs && i < MAXFD
    ensures var (a, c) := MemAlloc(s, FdKey(d, i), SHARED);
            c.Ok? ==> s.free != [] && s.free[0] < NPAGE && Flat(a) == Flat(s)[FdKey(d, i) := Word(s.free[0], SHARED)]
  {
    MemAllocInv(s, FdKey(d, i), SHARED);
    if s.free != [] { FreePage(s); }
    hide Inv, Flat, MemAlloc;
  }

  lemma TooFew(s: State, d: nat, i: nat)
    requires Shape(s) && |s.free| < 1 + Lack(s, d, FDX)
    ensures forall j: nat :: !Suffices(s, d, i, j)
  {
    hide Shape, HasTable, Frees;
  }

  lemma PipeFirst(s: State, d: nat, i: nat)
    requires Inv(s) && d in s.dirs && FdFrom(s, d, 0) == Some(i)
    ensures var (a, c) := MemAlloc(s, FdKey(d, i), SHARED);
            && Inv(a)
            && (!c.Ok? ==> Pipe(s, d).1 == Failed)
            && (c.Ok? ==>
                  d in a.dirs
                  && Pipe(s, d).1 == match FdFrom(a, d, 0)
                                     case None => Failed
                                     case Some(j) => Rest(a, d, i, j).1)
  {
    MemAllocInv(s, FdKey(d, i), SHARED);
    hide Inv, Flat, MemAlloc, MemMap, MemUnmap, Rest, Err1;
  }

  lemma PipeSecond(s: State, a: State, d: nat, i: nat)
    requires Inv(s) && Inv(a) && d in s.dirs && d in a.dirs && FdFrom(s, d, 0) == Some(i) && i + 1 < MAXFD
    requires MemAlloc(s, FdKey(d, i), SHARED) == (a, Code.Ok) && FdKey(d, i) !in Flat(s)
    requires FdFrom(a, d, 0) == FdFrom(s, d, i + 1) && FdFrom(a, d, 0).Some?
    ensures Shape(s)
    ensures var j := FdFrom(a, d, 0).value;
            var r := Rest(a, d, i, j).1;
            (r.Made? <==> Suffices(s, d, i, j)) && (r.Made? ==> r == Made(i, j))
  {
    var j := FdFrom(a, d, 0).value;
    InvShape(s);
    InvShape(a);
    FdUnmapped(a, d);
    AllocStep(s, FdKey(d, i), DataKey(d, i));
    AllocElsewhere(s, FdKey(d, i), DataKey(d, i));
    FreesMapped(s, FdKey(d, i));
    hide *;
    RestMakesIff(a, d, i, j);
    RestNames(a, d, i, j);
    SufficesAfter(s, a, d, i, j);
  }

  lemma SufficesAfter(s: State, a: State, d: nat, i: nat, j: nat)
    requires Shape(s) && Shape(a) && i < j && |a.free| == |s.free| - 1 - Lack(s, d, FDX)
    requires forall y: nat :: HasTable(a, d, y) <==> HasTable(s, d, y) || y == FDX
    requires Frees(a, DataKey(d, i)) <==> Frees(s, DataKey(d, i))
    ensures Suffices(s, d, i, j)
            <==> |a.free| >= 2 + Lack(a, d, FILEX + i) + if Frees(a, DataKey(d, i)) then 0 else Lack(a, d, FILEX + j)
  {
    LackAfter(s, a, d, FDX, i, j);
    hide Shape, HasTable, Frees, Lack;
  }
}
