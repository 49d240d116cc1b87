/** The shell's tokenizer: _gettoken and gettoken of user/sh.c, which cut words out of the
    command line by overwriting it with NULs and stay one token ahead of their caller. */
module Shell {
  import opened Wrappers

  const NUL: char := '\0'

  const WHITESPACE: string := " \t\r\n"
  const SYMBOLS: string := "<|>&;()"

  predicate IsSpace(c: char) { c in WHITESPACE }

  predicate IsSymbol(c: char) { c in SYMBOLS }

  lemma SeparatorsAre(c: char)
    ensures IsSpace(c) <==> c == ' ' || c == '\t' || c == '\r' || c == '\n'
    ensures IsSymbol(c) <==> c == '<' || c == '|' || c == '>' || c == '&' || c == ';' || c == '(' || c == ')'
  {}

  predicate IsSeparator(c: char) { IsSpace(c) || IsSymbol(c) }

  // ---------- the pure lexer ----------

  /** A token: 'w' for a word, or the symbol itself, and where it is in the line. */
  datatype Token = Token(kind: char, start: nat, end: nat)

  function SkipSpaces(line: string, i: nat): (j: nat)
    requires i <= |line|
    ensures i <= j <= |line| && (j < |line| ==> !IsSpace(line[j])) && forall k :: i <= k < j ==> IsSpace(line[k])
    decreases |line| - i
  {
    if i < |line| && IsSpace(line[i]) then SkipSpaces(line, i + 1) else i
  }

  function WordEnd(line: string, i: nat): (j: nat)
    requires i <= |line|
    ensures i <= j <= |line| && (j < |line| ==> IsSeparator(line[j]))
    ensures forall k :: i <= k < j ==> !IsSeparator(line[k])
    decreases |line| - i
  {
    if i < |line| && !IsSeparator(line[i]) then WordEnd(line, i + 1) else i
  }

  /** The first token at or after i. */
  function Lex(line: string, i: nat): (t: Option<Token>)
    requires i <= |line|
    ensures t.Some? ==> i <= t.value.start < t.value.end <= |line|
  {
    var j := SkipSpaces(line, i);
    if j == |line| then None
    else if IsSymbol(line[j]) then Some(Token(line[j], j, j + 1))
    else Some(Token('w', j, WordEnd(line, j)))
  }

  /** All tokens from i on. */
  function Tokens(line: string, i: nat): seq<Token>
    requires i <= |line|
    decreases |line| - i
  {
    var t := Lex(line, i);
    if t == None then [] else [t.value] + Tokens(line, t.value.end)
  }

  // ---------- what the tokens of a line are ----------

  predicate Blank(line: string, i: nat, j: nat) {
    i <= j <= |line| && forall k :: i <= k < j ==> IsSpace(line[k])
  }

  /** A symbol, or a longest run of characters that are neither space nor symbol. */
  predicate TokenAt(line: string, t: Token) {
    && t.start < t.end <= |line|
    && (if t.kind == 'w' then
          && (forall k :: t.start <= k < t.end ==> !IsSeparator(line[k]))
          && (t.end < |line| ==> IsSeparator(line[t.end]))
        else IsSymbol(t.kind) && t.end == t.start + 1 && line[t.start] == t.kind)
  }

  /** The tokens ts, in order, with nothing but spaces before, between and after them. */
  predicate Covers(line: string, i: nat, ts: seq<Token>)
    decreases |ts|
  {
    if ts == [] then Blank(line, i, |line|)
    else Blank(line, i, ts[0].start) && TokenAt(line, ts[0]) && Covers(line, ts[0].end, ts[1..])
  }

  lemma {:induction false} TokensCover(line: string, i: nat)
    requires i <= |line|
    ensures Covers(line, i, Tokens(line, i))
    decreases |line| - i
  {
    var t := Lex(line, i);
    if t.Some? { TokensCover(line, t.value.end); }
  }

  lemma SameToken(line: string, i: nat, t: Token, u: Token)
    requires Blank(line, i, t.start) && TokenAt(line, t) && Blank(line, i, u.start) && TokenAt(line, u)
    ensures t == u
  {
    assert !IsSpace(line[t.start]) && !IsSpace(line[u.start]);
    assert t.start == u.start;
    if t.kind == 'w' && u.kind == 'w' {
      if t.end < u.end { assert false; }
      if u.end < t.end { assert false; }
    }
  }

  lemma NotBlank(line: string, i: nat, t: Token)
    requires Blank(line, i, t.start) && TokenAt(line, t)
    ensures !Blank(line, i, |line|)
  {
    assert !IsSpace(line[t.start]);
  }

  /** There is only one way to cover a line with tokens, so Tokens is it. */
  lemma {:induction false} CoverIsUnique(line: string, i: nat, ts: seq<Token>, us: seq<Token>)
    requires Covers(line, i, ts) && Covers(line, i, us)
    ensures ts == us
    decreases |ts|
  {
    if ts == [] {
      if us != [] { NotBlank(line, i, us[0]); }
    } else if us == [] {
      NotBlank(line, i, ts[0]);
    } else {
      SameToken(line, i, ts[0], us[0]);
      CoverIsUnique(line, ts[0].end, ts[1..], us[1..]);
    }
  }

  // ---------- the tokenizer ----------

  /** The command line after everything before `frontier` has been scanned: separators there are
      NULs, and the characters of words are untouched. */
  function Zeroed(line: string, frontier: nat): (s: string)
    ensures |s| == |line|
    ensures forall k :: 0 <= k < |line| ==> s[k] == if k < frontier && IsSeparator(line[k]) then NUL else line[k]
  {
    seq(|line|, k requires 0 <= k < |line| => if k < frontier && IsSeparator(line[k]) then NUL else line[k])
  }

  datatype Ptr = Null | To(i: nat)

  /** The C string at p. */
  function CString(mem: string, p: nat): string
    requires p <= |mem|
    decreases |mem| - p
  {
    if p == |mem| || mem[p] == NUL then "" else [mem[p]] + CString(mem, p + 1)
  }

  lemma {:induction false} CStringIs(mem: string, p: nat, q: nat)
    requires p <= q < |mem| && mem[q] == NUL && forall k :: p <= k < q ==> mem[k] != NUL
    ensures CString(mem, p) == mem[p..q]
    decreases q - p
  {
    if p < q {
      CStringIs(mem, p + 1, q);
      assert mem[p..q] == [mem[p]] + mem[p + 1..q];
    }
  }

  /** A word whose end the scan has passed is a C string of its own. */
  lemma WordIsCString(line: string, t: Token, frontier: nat)
    requires NUL !in line && TokenAt(line, t) && t.kind == 'w'
    requires t.end < frontier || t.end == |line|
    ensures CString(Zeroed(line, frontier) + [NUL], t.start) == line[t.start..t.end]
  {
    var mem := Zeroed(line, frontier) + [NUL];
    forall k | t.start <= k < t.end ensures mem[k] == line[k] && mem[k] != NUL { assert line[k] in line; }
    CStringIs(mem, t.start, t.end);
    assert mem[t.start..t.end] == line[t.start..t.end];
  }

  class Tokenizer {
    const mem: array<char>       // the command line and its terminating NUL
    var c: char                  // gettoken's static variables
    var nc: char
    var np1: Ptr
    var np2: Ptr
    ghost const line: string     // the command line as it was given
    ghost var frontier: nat      // how far the scan has come
    ghost var todo: seq<Token>   // the tokens gettoken has still to return

    ghost predicate Memory()
      reads this, mem
    {
      NUL !in line && frontier <= |line| && mem[..] == Zeroed(line, frontier) + [NUL]
    }

    /** The lookahead holds the next token; after the last one it is 0 with null pointers. */
    ghost predicate Valid()
      reads this, mem
    {
      && Memory()
      && (if todo == [] then nc == NUL && np1 == Null && np2 == Null && frontier == |line|
          else
            && TokenAt(line, todo[0]) && nc == todo[0].kind && np1 == To(todo[0].start) && np2 == To(todo[0].end)
            && frontier == todo[0].end && todo[1..] == Tokens(line, todo[0].end))
    }

    /** gettoken(s, 0). */
    constructor (s: string)
      requires NUL !in s
      ensures Valid() && line == s && todo == Tokens(s, 0) && fresh(mem)
    {
      var buffer := s + [NUL];
      mem := new char[|s| + 1](i requires 0 <= i < |s| + 1 && buffer == s + [NUL] => buffer[i]);
      c, nc, np1, np2 := NUL, NUL, Null, Null;
      line, frontier, todo := s, 0, [];
      new;
      assert mem[..] == Zeroed(line, 0) + [NUL];
      nc := RawToken(To(0));
      todo := Tokens(s, 0);
      TokensCover(s, 0);
    }

    /** *s++ = 0, at a separator. */
    method Erase(p: nat) returns (q: nat)
      requires Memory() && p == frontier < |line| && IsSeparator(line[p])
      modifies this`frontier, mem
      ensures Memory() && q == frontier == p + 1
    {
      mem[p] := NUL;
      q, frontier := p + 1, frontier + 1;
      assert mem[..] == Zeroed(line, frontier) + [NUL];
    }

    /** What the scan finds at its frontier. */
    lemma Ahead()
      requires Memory()
      ensures frontier < mem.Length && mem[frontier] == (if frontier < |line| then line[frontier] else NUL)
      ensures mem[frontier] == NUL <==> frontier == |line|
    {
      if frontier < |line| { assert line[frontier] in line; }
    }

    /** The first loop of _gettoken. */
    method EraseSpaces(s: nat) returns (p: nat)
      requires Memory() && s == frontier
      modifies this`frontier, mem
      ensures Memory() && p == frontier == SkipSpaces(line, s)
    {
      p := s;
      Ahead();
      while IsSpace(mem[p])
        invariant Memory() && p == frontier < mem.Length && SkipSpaces(line, p) == SkipSpaces(line, s)
        invariant mem[p] == if p < |line| then line[p] else NUL
        decreases |line| - p
      {
        p := Erase(p);
        Ahead();
      }
    }

    /** The second loop of _gettoken. */
    method PassWord(s: nat) returns (p: nat)
      requires Memory() && s == frontier
      modifies this`frontier
      ensures Memory() && p == frontier == WordEnd(line, s)
    {
      p := s;
      Ahead();
      while mem[p] != NUL && !IsSeparator(mem[p])
        invariant Memory() && p == frontier < mem.Length && WordEnd(line, p) == WordEnd(line, s)
        invariant mem[p] == if p < |line| then line[p] else NUL
        invariant mem[p] == NUL <==> p == |line|
        decreases |line| - p
      {
        p, frontier := p + 1, frontier + 1;
        assert Zeroed(line, frontier) == Zeroed(line, frontier - 1);
        Ahead();
      }
    }

    /** _gettoken, with p1 and p2 pointing to np1 and np2. */
    method RawToken(s: Ptr) returns (t: char)
      requires s == Null ==> Memory() && np1 == Null && np2 == Null && frontier == |line|
      requires s.To? ==> Memory() && s.i == frontier
      modifies this`np1, this`np2, this`frontier, mem
      ensures Memory()
      ensures var next := if s == Null then None else Lex(line, s.i);
              if next == None then t == NUL && np1 == Null && np2 == Null && frontier == |line|
              else
                && t == next.value.kind && np1 == To(next.value.start) && np2 == To(next.value.end)
                && frontier == next.value.end
    {
      if s == Null { return NUL; }
      np1, np2 := Null, Null;
      var p := EraseSpaces(s.i);
      Ahead();
      hide Memory;
      if mem[p] == NUL { return NUL; }
      if IsSymbol(mem[p]) {
        t := mem[p];
        np1 := To(p);
        p := Erase(p);
        np2 := To(p);
        return;
      }
      np1 := To(p);
      p := PassWord(p);
      np2 := To(p);
      t := 'w';
    }

    /** gettoken(0, &p1). It returns the tokens of the line one by one and then 0 for ever, and
        the C string at a word's p1 is exactly the word. */
    method GetToken() returns (t: char, p1: Ptr)
      requires Valid()
      modifies this`c, this`nc, this`np1, this`np2, this`frontier, this`todo, mem
      ensures Valid()
      ensures old(todo) == [] ==> t == NUL && p1 == Null && todo == []
      ensures old(todo) != [] ==>
                var next := old(todo)[0];
                && t == next.kind && p1 == To(next.start) && todo == old(todo)[1..]
                && p1.i <= mem.Length && (t == 'w' ==> CString(mem[..], p1.i) == line[next.start..next.end])
    {
      c := nc;
      p1 := np1;
      ghost var was := todo;
      nc := RawToken(np2);
      t := c;
      if was != [] {
        todo := was[1..];
        TokensCover(line, was[0].end);
        if t == 'w' { WordIsCString(line, was[0], frontier); }
      }
    }
  }

  /** Words already returned stay what they are, however far the scan goes on. */
  lemma WordsStay(line: string, t: Token, frontier: nat, later: nat)
    requires NUL !in line && TokenAt(line, t) && t.kind == 'w'
    requires (t.end < frontier || t.end == |line|) && frontier <= later
    ensures CString(Zeroed(line, later) + [NUL], t.start) == CString(Zeroed(line, frontier) + [NUL], t.start)
  {
    WordIsCString(line, t, frontier);
    WordIsCString(line, t, later);
  }
}
