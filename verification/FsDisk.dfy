/** The block operations of fs/fs.c as the file server runs them: on bitmap words, cached blocks
    and File structures changed in place. Each is proved equal to its counterpart on values. */
module FsDisk {
  import opened B = FsBlocks
  import opened Bitmap

  // ---------- fs/fs.c, updating in place ----------

  class Disk {
    const nblocks: nat
    const bitmap: array<bv32>
    const mapped: array<bool>
    const words: array<seq<nat>>
    const files: array<File>

    /** Different arrays are different objects. */
    ghost predicate Separate() {
      var b: object, m: object, w: object, f: object := bitmap, mapped, words, files;
      b != m && b != w && b != f && m != w && m != f && w != f
    }

    ghost predicate Sized()
      reads this, words, files
    {
      && Separate() && nblocks <= 32 * bitmap.Length && mapped.Length == nblocks && words.Length == nblocks
      && WordsOk(words[..]) && FilesOk(files[..])
    }

    /** What the server holds, the bitmap read bit by bit. */
    ghost function S(): (s: Fs)
      requires Sized()
      reads this, bitmap, mapped, words, files
      ensures Shape(s) && |s.free| == nblocks && |s.files| == files.Length
    {
      Fs(Bits(bitmap[..], nblocks), mapped[..], words[..], files[..])
    }

    constructor (ws: seq<bv32>, s: Fs)
      requires Shape(s) && |s.free| <= 32 * |ws| && s.free == Bits(ws, |s.free|)
      ensures Sized() && S() == s && fresh(bitmap) && fresh(mapped) && fresh(words) && fresh(files)
    {
      nblocks := |s.free|;
      bitmap := new bv32[|ws|](i requires 0 <= i < |ws| => ws[i]);
      mapped := new bool[|s.mapped|](i requires 0 <= i < |s.mapped| => s.mapped[i]);
      words := new seq<nat>[|s.words|](i requires 0 <= i < |s.words| => s.words[i]);
      files := new File[|s.files|](i requires 0 <= i < |s.files| => s.files[i]);
      new;
      assert bitmap[..] == ws && mapped[..] == s.mapped && words[..] == s.words && files[..] == s.files;
    }

    /** block_is_free. */
    method BlockIsFree(b: nat) returns (r: bool)
      requires Sized()
      ensures r <==> b < nblocks && S().free[b]
    {
      if b >= nblocks { return false; }
      r := Bit(bitmap[b / 32], b % 32);
    }

    /** free_block; block 0, the null pointer, stops the server. */
    method FreeBlock(b: nat)
      requires Sized() && 0 < b < nblocks
      modifies bitmap
      ensures Sized() && S() == old(S()).(free := old(S()).free[b := true])
    {
      BitsSet(bitmap[..], nblocks, b);
      bitmap[b / 32] := With(bitmap[b / 32], Mask(b % 32));
      assert bitmap[..] == old(bitmap[..])[b / 32 := bitmap[b / 32]];
    }

    /** alloc_block_num. */
    method AllocBlockNum() returns (r: Result)
      requires Sized()
      modifies bitmap
      ensures Sized()
      ensures var s := old(S());
              if Lowest(s) < nblocks then
                r == Block(Lowest(s)) && S() == s.(free := s.free[Lowest(s) := false])
              else r == NoDisk && S() == s
    {
      var b: nat := FIRST;
      while b < nblocks
        invariant FIRST <= b && (b <= nblocks || b == FIRST)
        invariant forall k :: FIRST <= k < b && k < nblocks ==> !S().free[k]
        invariant bitmap[..] == old(bitmap[..])
      {
        if Bit(bitmap[b / 32], b % 32) {
          FirstFreeIs(S().free, FIRST, b);
          BitsUnset(bitmap[..], nblocks, b);
          bitmap[b / 32] := Without(bitmap[b / 32], Mask(b % 32));
          assert bitmap[..] == old(bitmap[..])[b / 32 := bitmap[b / 32]];
          return Block(b);
        }
        b := b + 1;
      }
      r := NoDisk;
    }

    /** alloc_block, with map_block inlined. */
    method AllocBlock(noMem: bool) returns (r: Result)
      requires Sized()
      modifies bitmap, mapped, words
      ensures Sized() && (S(), r) == B.AllocBlock(old(S()), noMem)
    {
      r := AllocBlockNum();
      if !r.Block? { return; }
      label took:
      if !mapped[r.b] {
        if noMem {
          FreeBlock(r.b);
          assert S().free == old(S()).free;
          return NoMem;
        }
        words[r.b], mapped[r.b] := ZeroBlock(), true;
        assert words[..] == old@took(words[..])[r.b := ZeroBlock()];
        assert mapped[..] == old@took(mapped[..])[r.b := true];
      }
    }

    /** read_block; ok is false where it would stop the server. */
    method ReadBlock(b: nat) returns (ok: bool)
      requires Sized()
      modifies mapped
      ensures Sized() && (S(), ok) == B.ReadBlock(old(S()), b)
    {
      if b >= nblocks { return false; }
      var free := BlockIsFree(b);
      if free { return false; }
      mapped[b] := true;
      ok := true;
      assert mapped[..] == old(mapped[..])[b := true];
    }

    /** file_block_walk. */
    method FileBlockWalk(f: nat, n: nat, alloc: bool, noMem: bool) returns (r: Result)
      requires Sized() && f < files.Length
      modifies bitmap, mapped, words, files
      ensures Sized() && (S(), r) == B.Walk(old(S()), f, n, alloc, noMem)
    {
      if n < NDIRECT {
        return Block(0);
      } else if n < NINDIRECT {
        if files[f].indirect == 0 {
          if !alloc { return NotFound; }
          r := AllocBlock(noMem);
          if !r.Block? { return; }
          label got:
          files[f] := files[f].(indirect := r.b);
          assert files[..] == old@got(files[..])[f := files[f]];
        }
        var ok := ReadBlock(files[f].indirect);
        r := if ok then Block(0) else Panic;
      } else {
        r := Inval;
      }
    }

    /** *ptr. */
    method Load(f: nat, n: nat) returns (v: nat)
      requires Sized() && Pointed(S(), f, n)
      ensures v == Val(S(), Ptr(f, n))
    {
      v := if n < NDIRECT then files[f].direct[n] else words[files[f].indirect][n];
    }

    /** *ptr = v. */
    method Save(f: nat, n: nat, v: nat)
      requires Sized() && Pointed(S(), f, n)
      modifies words, files
      ensures Sized() && S() == SetPtr(old(S()), f, n, v)
    {
      if n < NDIRECT {
        files[f] := files[f].(direct := Put(files[f].direct, n, v));
        assert files[..] == old(files[..])[f := files[f]];
      } else {
        var b := files[f].indirect;
        words[b] := Put(words[b], n, v);
        assert words[..] == old(words[..])[b := words[b]];
      }
    }

    /** file_map_block. */
    method FileMapBlock(f: nat, n: nat, alloc: bool, noMem0: bool, noMem1: bool) returns (r: Result)
      requires Sized() && f < files.Length
      modifies bitmap, mapped, words, files
      ensures Sized() && (S(), r) == MapBlock(old(S()), f, n, alloc, noMem0, noMem1)
    {
      WalkPoints(S(), f, n, alloc, noMem0);
      r := FileBlockWalk(f, n, alloc, noMem0);
      if !r.Block? { return; }
      var v := Load(f, n);
      if v == 0 {
        if !alloc { return NotFound; }
        AllocPoints(S(), f, n, noMem1);
        hide Walk, B.AllocBlock, Val, SetPtr, Lowest;
        r := AllocBlock(noMem1);
        if !r.Block? { return; }
        Save(f, n, r.b);
      } else {
        r := Block(v);
      }
    }

    /** file_clear_block; its result is that of the walk. */
    method FileClearBlock(f: nat, n: nat)
      requires Sized() && f < files.Length && Inv(S())
      modifies bitmap, mapped, words, files
      ensures Sized() && S() == ClearBlock(old(S()), f, n)
    {
      WalkEffect(S(), f, n, false, false, Ptr(f, n));
      var r := FileBlockWalk(f, n, false, false);
      if !r.Block? { return; }
      var v := Load(f, n);
      if v != 0 {
        assert InUse(S(), Ptr(f, n));
        FreeBlock(v);
        Save(f, n, 0);
      }
    }

    /** The loop of file_truncate, the same in both of its branches. */
    method ClearFrom(f: nat, lo: nat, hi: nat)
      requires Sized() && f < files.Length && Inv(S())
      modifies bitmap, mapped, words, files
      ensures Sized() && S() == ClearRange(old(S()), f, lo, hi)
    {
      ghost var u := S();
      hide Inv, ClearBlock;
      var b := lo;
      while b < hi
        invariant Sized() && Inv(S()) && b >= lo
        invariant ClearRange(S(), f, b, hi) == ClearRange(u, f, lo, hi)
      {
        ClearBlockEffect(S(), f, b, Ind(f));
        FileClearBlock(f, b);
        b := b + 1;
      }
    }

    /** file_truncate. */
    method FileTruncate(f: nat, newsize: nat)
      requires Sized() && f < files.Length && Inv(S())
      modifies bitmap, mapped, words, files
      ensures Sized() && S() == Truncate(old(S()), f, newsize)
    {
      hide Inv, ClearRange;
      var oldBlocks := files[f].size / BY2BLK + 1;
      var newBlocks := newsize / BY2BLK + 1;
      if newsize == 0 { newBlocks := 0; }
      if newBlocks <= NDIRECT {
        DropIndirectInv(S(), f);
        files[f] := files[f].(indirect := 0);
        assert files[..] == old(files[..])[f := files[f]];
      }
      ClearFrom(f, newBlocks, oldBlocks);
      label cleared:
      files[f] := files[f].(size := newsize);
      assert files[..] == old@cleared(files[..])[f := files[f]];
    }
  }
}
