/** In-place number and string formatting: lib/print.c. */
module Print {
  function Repeat(c: char, n: nat): (s: string)
    ensures |s| == n && forall i :: 0 <= i < n ==> s[i] == c
  {
    seq(n, i => c)
  }

  function Reverse(s: string): (r: string)
    ensures |r| == |s| && forall i :: 0 <= i < |s| ==> r[i] == s[|s| - 1 - i]
  {
    seq(|s|, i requires 0 <= i < |s| => s[|s| - 1 - i])
  }

  function Pad(length: int, used: nat): nat { if length > used then length - used else 0 }

  // ---------- digits ----------

  type Base = b: nat | 2 <= b <= 36 witness 2

  function DigitChar(d: nat, upcase: bool): (c: char)
    requires d < 36
  {
    if d <= 9 then ('0' as int + d) as char
    else if upcase then ('A' as int + d - 10) as char
    else ('a' as int + d - 10) as char
  }

  /** The value of a digit character of either case; 36 for any other character. */
  function DigitValue(c: char): nat {
    if '0' <= c <= '9' then c as int - '0' as int
    else if 'A' <= c <= 'Z' then c as int - 'A' as int + 10
    else if 'a' <= c <= 'z' then c as int - 'a' as int + 10
    else 36
  }

  /** Which character each digit is, in either case. */
  lemma DigitIs(d: nat, upcase: bool)
    requires d < 36
    ensures var all := if upcase then "0123456789ABCDEFGHIJKLMNOPQRSTUVWXYZ" else "0123456789abcdefghijklmnopqrstuvwxyz";
            |all| == 36 && DigitChar(d, upcase) == all[d]
  {}

  lemma DigitRoundTrip(d: nat, upcase: bool)
    requires d < 36
    ensures DigitValue(DigitChar(d, upcase)) == d
  {}

  function Rem(u: nat, base: Base): (r: nat)
    ensures r < base
  {
    u % base
  }

  /** A numeral with value v gains the digit d at its end. */
  function Append(v: nat, base: nat, d: nat): nat { v * base + d }

  function Quot(u: nat, base: Base): (q: nat)
    ensures Append(q, base, Rem(u, base)) == u && (u > 0 ==> q < u)
  {
    QuotLess(u, base);
    u / base
  }

  lemma QuotLess(u: nat, base: Base)
    ensures u / base * base + u % base == u && (u > 0 ==> u / base < u)
  {
    var q := u / base;
    if q > 0 { assert q * base >= q * 2; }
  }

  /** The digits in the order in which the loop writes them, lowest first. */
  function LowFirst(u: nat, base: Base, upcase: bool): (s: string)
    ensures |s| >= 1
    decreases u
  {
    [DigitChar(Rem(u, base), upcase)] + (if Quot(u, base) == 0 then "" else LowFirst(Quot(u, base), base, upcase))
  }

  function Numeral(u: nat, base: Base, upcase: bool): string { Reverse(LowFirst(u, base, upcase)) }

  // ---------- what is printed ----------

  /** Left-adjusted: sign, digits, spaces. Right-adjusted: padding, sign, digits, but zeros go
      between the sign and the digits. */
  function Layout(u: nat, base: Base, neg: bool, length: int, ladjust: bool, padc: char, upcase: bool): string {
    var sign := if neg then "-" else "";
    var digits := Numeral(u, base, upcase);
    var n := Pad(length, |sign| + |digits|);
    if ladjust then sign + digits + Repeat(' ', n)
    else if padc == '0' then sign + Repeat('0', n) + digits
    else Repeat(padc, n) + sign + digits
  }

  /** What PrintNum leaves in the buffer before it reverses. */
  function Backward(u: nat, base: Base, neg: bool, length: int, ladjust: bool, padc: char, upcase: bool): string {
    var sign := if neg then "-" else "";
    var digits := LowFirst(u, base, upcase);
    var n := Pad(length, |sign| + |digits|);
    if neg && !ladjust && padc == '0' then digits + Repeat('0', n) + "-"
    else digits + sign + Repeat(if ladjust then ' ' else padc, n)
  }

  lemma ReverseJoin(a: string, b: string)
    ensures Reverse(a + b) == Reverse(b) + Reverse(a)
  {}

  lemma ReverseRepeat(c: char, n: nat)
    ensures Reverse(Repeat(c, n)) == Repeat(c, n)
  {}

  lemma SpacesLast(sign: string, digits: string, n: nat)
    requires Reverse(sign) == sign
    ensures var b := digits + sign + Repeat(' ', n);
            Reverse(b[..|digits| + |sign|]) + b[|digits| + |sign|..] == sign + Reverse(digits) + Repeat(' ', n)
  {
    var b := digits + sign + Repeat(' ', n);
    assert b[..|digits| + |sign|] == digits + sign && b[|digits| + |sign|..] == Repeat(' ', n);
    ReverseJoin(digits, sign);
  }

  lemma PaddingFirst(sign: string, digits: string, c: char, n: nat)
    requires Reverse(sign) == sign
    ensures Reverse(digits + sign + Repeat(c, n)) == Repeat(c, n) + sign + Reverse(digits)
  {
    ReverseJoin(digits + sign, Repeat(c, n));
    ReverseJoin(digits, sign);
    ReverseRepeat(c, n);
    hide Reverse, Repeat;
    assert Repeat(c, n) + (sign + Reverse(digits)) == Repeat(c, n) + sign + Reverse(digits);
  }

  lemma ZerosInside(digits: string, n: nat)
    ensures Reverse(digits + Repeat('0', n) + "-") == "-" + Repeat('0', n) + Reverse(digits)
  {
    ReverseJoin(digits + Repeat('0', n), "-");
    ReverseJoin(digits, Repeat('0', n));
    ReverseRepeat('0', n);
    assert Reverse("-") == "-";
    hide Reverse, Repeat;
    assert "-" + (Repeat('0', n) + Reverse(digits)) == "-" + Repeat('0', n) + Reverse(digits);
  }

  lemma BackwardLeft(u: nat, base: Base, neg: bool, length: int, padc: char, upcase: bool)
    ensures var b := Backward(u, base, neg, length, true, padc, upcase);
            var n := |LowFirst(u, base, upcase)| + if neg then 1 else 0;
            n <= |b| && Layout(u, base, neg, length, true, padc, upcase) == Reverse(b[..n]) + b[n..]
  {
    var sign := if neg then "-" else "";
    var digits := LowFirst(u, base, upcase);
    assert Reverse(sign) == sign;
    hide Reverse, Repeat, LowFirst, Pad;
    SpacesLast(sign, digits, Pad(length, |sign| + |digits|));
  }

  lemma BackwardZeros(u: nat, base: Base, length: int, upcase: bool)
    ensures Layout(u, base, true, length, false, '0', upcase) == Reverse(Backward(u, base, true, length, false, '0', upcase))
  {
    var digits := LowFirst(u, base, upcase);
    hide Reverse, Repeat, LowFirst, Pad;
    ZerosInside(digits, Pad(length, 1 + |digits|));
  }

  lemma NoSign(pad: string, digits: string)
    ensures "" + pad + digits == pad + "" + digits
  {}

  lemma BackwardRight(u: nat, base: Base, neg: bool, length: int, padc: char, upcase: bool)
    requires !(neg && padc == '0')
    ensures Layout(u, base, neg, length, false, padc, upcase) == Reverse(Backward(u, base, neg, length, false, padc, upcase))
  {
    var sign := if neg then "-" else "";
    var digits := LowFirst(u, base, upcase);
    var n := Pad(length, |sign| + |digits|);
    assert Reverse(sign) == sign;
    hide Reverse, Repeat, LowFirst, Pad;
    PaddingFirst(sign, digits, padc, n);
    NoSign(Repeat(padc, n), Reverse(digits));
  }

  /** Reversing gives the layout: all of the buffer, or, left-adjusted, all but the padding. */
  lemma BackwardIsLayout(u: nat, base: Base, neg: bool, length: int, ladjust: bool, padc: char, upcase: bool)
    ensures var b := Backward(u, base, neg, length, ladjust, padc, upcase);
            var n := |LowFirst(u, base, upcase)| + if neg then 1 else 0;
            n <= |b| && Layout(u, base, neg, length, ladjust, padc, upcase)
                        == if ladjust then Reverse(b[..n]) + b[n..] else Reverse(b)
  {
    BackwardFits(u, base, neg, length, ladjust, padc, upcase);
    hide Layout, Backward, LowFirst, Reverse;
    if ladjust {
      BackwardLeft(u, base, neg, length, padc, upcase);
    } else if neg && padc == '0' {
      BackwardZeros(u, base, length, upcase);
    } else {
      BackwardRight(u, base, neg, length, padc, upcase);
    }
  }

  lemma BackwardFits(u: nat, base: Base, neg: bool, length: int, ladjust: bool, padc: char, upcase: bool)
    ensures |LowFirst(u, base, upcase)| + (if neg then 1 else 0) <= |Backward(u, base, neg, length, ladjust, padc, upcase)|
  {}

  /** The result is as long as the width asks for, or as sign and digits need. */
  lemma LayoutLength(u: nat, base: Base, neg: bool, length: int, ladjust: bool, padc: char, upcase: bool)
    ensures var used := |Numeral(u, base, upcase)| + if neg then 1 else 0;
            |Layout(u, base, neg, length, ladjust, padc, upcase)| == if length > used then length else used
  {}

  /** Where everything is: left-adjusted, the spaces are last; right-adjusted, zeros are between the sign and
      the digits, and any other padding is in front of the sign. */
  lemma LayoutAt(u: nat, base: Base, neg: bool, length: int, ladjust: bool, padc: char, upcase: bool, k: nat)
    requires k < |Layout(u, base, neg, length, ladjust, padc, upcase)|
    ensures var l := Layout(u, base, neg, length, ladjust, padc, upcase);
            var d := Numeral(u, base, upcase);
            var sign := if neg then 1 else 0;
            var n := |l| - sign - |d|;
            && n >= 0
            && (ladjust ==> l[k] == if k < sign then '-' else if k < sign + |d| then d[k - sign] else ' ')
            && (!ladjust && padc == '0' ==> l[k] == if k < sign then '-' else if k < sign + n then '0' else d[k - sign - n])
            && (!ladjust && padc != '0' ==> l[k] == if k < n then padc else if k < n + sign then '-' else d[k - n - sign])
  {
    hide Numeral;
  }

  // ---------- reading back ----------

  /** The number that a string of digits, highest first, stands for. */
  function Value(s: string, base: nat): nat {
    if s == "" then 0 else Append(Value(s[..|s| - 1], base), base, DigitValue(s[|s| - 1]))
  }

  lemma NumeralStep(u: nat, base: Base, upcase: bool)
    ensures Numeral(u, base, upcase)
            == (if Quot(u, base) == 0 then "" else Numeral(Quot(u, base), base, upcase)) + [DigitChar(Rem(u, base), upcase)]
  {
    LowStep(u, base, upcase);
    hide Rem, Quot, DigitChar, LowFirst;
    var c := DigitChar(Rem(u, base), upcase);
    var rest := if Quot(u, base) == 0 then "" else LowFirst(Quot(u, base), base, upcase);
    ReverseJoin([c], rest);
    assert Reverse([c]) == [c] && Reverse("") == "";
    hide Reverse;
  }

  lemma ValueSnoc(s: string, c: char, base: nat)
    ensures Value(s + [c], base) == Append(Value(s, base), base, DigitValue(c))
  {
    assert (s + [c])[..|s|] == s;
  }

  /** The digits parse back to the number. */
  lemma {:induction false} NumeralValue(u: nat, base: Base, upcase: bool)
    ensures Value(Numeral(u, base, upcase), base) == u
    decreases u
  {
    NumeralStep(u, base, upcase);
    DigitRoundTrip(Rem(u, base), upcase);
    var q, c := Quot(u, base), DigitChar(Rem(u, base), upcase);
    hide Rem, Quot, DigitChar, DigitValue, Numeral, Append;
    ValueSnoc(if q == 0 then "" else Numeral(q, base, upcase), c, base);
    if q > 0 { NumeralValue(q, base, upcase); }
  }

  predicate AllDigits(s: string, base: nat) { forall i :: 0 <= i < |s| ==> DigitValue(s[i]) < base }

  lemma {:induction false} NumeralDigits(u: nat, base: Base, upcase: bool)
    ensures AllDigits(Numeral(u, base, upcase), base) && |Numeral(u, base, upcase)| > 0
    decreases u
  {
    NumeralStep(u, base, upcase);
    DigitRoundTrip(Rem(u, base), upcase);
    hide Rem, Quot, DigitChar, DigitValue, Numeral;
    if Quot(u, base) != 0 { NumeralDigits(Quot(u, base), base, upcase); }
  }

  /** No leading zero. */
  lemma {:induction false} NumeralNormal(u: nat, base: Base, upcase: bool)
    ensures |Numeral(u, base, upcase)| > 0 && (u > 0 ==> Numeral(u, base, upcase)[0] != '0')
    decreases u
  {
    NumeralStep(u, base, upcase);
    DigitRoundTrip(Rem(u, base), upcase);
    var q := Quot(u, base);
    hide Rem, Quot, DigitChar, Numeral;
    if q != 0 { NumeralNormal(q, base, upcase); } else { assert Append(0, base, Rem(u, base)) == Rem(u, base); }
  }

  lemma {:induction false} LeadingZeros(n: nat, s: string, base: nat)
    ensures Value(Repeat('0', n) + s, base) == Value(s, base)
    decreases |s|, n
  {
    var t := Repeat('0', n) + s;
    if s != "" {
      assert t[..|t| - 1] == Repeat('0', n) + s[..|s| - 1];
      LeadingZeros(n, s[..|s| - 1], base);
    } else if n > 0 {
      assert t[..n - 1] == Repeat('0', n - 1) + s;
      LeadingZeros(n - 1, s, base);
    }
  }

  function SkipSpaces(s: string): string {
    if s != "" && s[0] == ' ' then SkipSpaces(s[1..]) else s
  }

  /** The leading digits of a string. */
  function Digits(s: string, base: nat): string {
    if s != "" && DigitValue(s[0]) < base then [s[0]] + Digits(s[1..], base) else ""
  }

  /** Reads a number: spaces, an optional minus sign, digits. */
  function Read(s: string, base: nat): (bool, nat) {
    var t := SkipSpaces(s);
    if t != "" && t[0] == '-' then (true, Value(Digits(t[1..], base), base)) else (false, Value(Digits(t, base), base))
  }

  lemma {:induction false} SpacesSkipped(n: nat, s: string)
    requires s == "" || s[0] != ' '
    ensures SkipSpaces(Repeat(' ', n) + s) == s
  {
    if n > 0 {
      assert (Repeat(' ', n) + s)[1..] == Repeat(' ', n - 1) + s;
      SpacesSkipped(n - 1, s);
    } else {
      assert Repeat(' ', 0) + s == s;
    }
  }

  lemma {:induction false} DigitsTaken(s: string, n: nat, base: Base)
    requires AllDigits(s, base)
    ensures Digits(s + Repeat(' ', n), base) == s
  {
    var t := s + Repeat(' ', n);
    if s != "" {
      assert t[0] == s[0] && t[1..] == s[1..] + Repeat(' ', n);
      DigitsTaken(s[1..], n, base);
    }
  }

  lemma ZerosAreDigits(n: nat, digits: string, base: Base)
    requires AllDigits(digits, base)
    ensures AllDigits(Repeat('0', n) + digits, base)
  {}

  lemma JoinEmpty(sign: string, digits: string, pad: string)
    ensures "" + sign + ("" + digits) + pad == sign + digits + pad
    ensures "" + sign + (pad + digits) + "" == sign + pad + digits
    ensures pad + sign + ("" + digits) + "" == pad + sign + digits
  {}

  /** Printed with spaces or zeros for padding, a number is spaces, sign, zeros, digits, spaces. */
  lemma LayoutShape(u: nat, base: Base, neg: bool, length: int, ladjust: bool, padc: char, upcase: bool)
    returns (before: nat, zeros: nat, after: nat)
    requires padc == ' ' || padc == '0'
    ensures Layout(u, base, neg, length, ladjust, padc, upcase)
            == Repeat(' ', before) + (if neg then "-" else "") + (Repeat('0', zeros) + Numeral(u, base, upcase))
               + Repeat(' ', after)
  {
    var digits := Numeral(u, base, upcase);
    var n := Pad(length, |if neg then "-" else ""| + |digits|);
    assert Repeat(' ', 0) == "" && Repeat('0', 0) == "";
    hide Numeral, Repeat, Pad;
    before, zeros, after := 0, 0, 0;
    JoinEmpty(if neg then "-" else "", digits, Repeat(if padc == '0' && !ladjust then '0' else ' ', n));
    if ladjust { after := n; } else if padc == '0' { zeros := n; } else { before := n; }
  }

  /** Whatever is printed with spaces or zeros for padding reads back as the same number, for
      every value, sign, base, width and adjustment. */
  lemma ReadBack(u: nat, base: Base, neg: bool, length: int, ladjust: bool, padc: char, upcase: bool)
    requires padc == ' ' || padc == '0'
    ensures Read(Layout(u, base, neg, length, ladjust, padc, upcase), base) == (neg, u)
  {
    var digits := Numeral(u, base, upcase);
    var before, zeros, after := LayoutShape(u, base, neg, length, ladjust, padc, upcase);
    NumeralDigits(u, base, upcase);
    NumeralValue(u, base, upcase);
    LeadingZeros(zeros, digits, base);
    ZerosAreDigits(zeros, digits, base);
    hide Numeral, Value, Read, AllDigits, Layout, Repeat;
    ReadPadded(Layout(u, base, neg, length, ladjust, padc, upcase), before, if neg then "-" else "",
               Repeat('0', zeros) + digits, after, base);
  }

  lemma ReadPadded(all: string, before: nat, sign: string, digits: string, after: nat, base: Base)
    requires sign == "-" || sign == ""
    requires digits != "" && AllDigits(digits, base)
    requires all == Repeat(' ', before) + sign + digits + Repeat(' ', after)
    ensures Read(all, base) == (sign == "-", Value(digits, base))
  {
    var rest := sign + digits + Repeat(' ', after);
    assert all == Repeat(' ', before) + rest;
    assert DigitValue(digits[0]) < base;
    assert rest[0] != ' ';
    SpacesSkipped(before, rest);
    DigitsTaken(digits, after, base);
    if sign == "-" {
      assert rest[1..] == digits + Repeat(' ', after);
    } else {
      assert rest == digits + Repeat(' ', after);
    }
  }

  // ---------- lib/print.c, filling a buffer in place ----------

  function Max(a: int, b: int): int { if a < b then b else a }

  /** buf[from..to] = c. */
  method Fill(buf: array<char>, from: int, to: int, c: char)
    requires 0 <= from && to <= buf.Length
    modifies buf
    ensures forall k :: 0 <= k < buf.Length ==> buf[k] == if from <= k < to then c else old(buf[k])
  {
    var i := from;
    while i < to
      invariant from <= i && (from <= to ==> i <= to) && (from >= to ==> i == from)
      invariant forall k :: 0 <= k < buf.Length ==> buf[k] == if from <= k < i then c else old(buf[k])
    {
      buf[i] := c;
      i := i + 1;
    }
  }

  /** Reverses the first n characters by swapping from both ends. */
  method ReversePrefix(buf: array<char>, n: nat)
    requires n <= buf.Length
    modifies buf
    ensures buf[..] == Reverse(old(buf[..n])) + old(buf[n..])
  {
    var begin: nat, end := 0, n - 1;
    while end > begin
      invariant begin + end == n - 1 && begin <= end + 2
      invariant forall k :: 0 <= k < buf.Length ==>
                  buf[k] == if k < n && (k < begin || k > end) then old(buf[n - 1 - k]) else old(buf[k])
    {
      buf[begin], buf[end] := buf[end], buf[begin];
      begin := begin + 1;
      end := end - 1;
    }
  }

  lemma LowStep(u: nat, base: Base, upcase: bool)
    ensures LowFirst(u, base, upcase)
            == [DigitChar(Rem(u, base), upcase)]
               + (if Quot(u, base) == 0 then "" else LowFirst(Quot(u, base), base, upcase))
  {}

  /** One more character behind the first p. */
  method Put(buf: array<char>, p: nat, c: char)
    requires p < buf.Length
    modifies buf
    ensures buf[..p + 1] == old(buf[..p]) + [c] && buf[p + 1..] == old(buf[p + 1..])
  {
    buf[p] := c;
  }

  /** The do-while loop that writes the digits, lowest first. */
  method WriteDigits(buf: array<char>, u: nat, base: Base, upcase: bool) returns (p: nat)
    requires |LowFirst(u, base, upcase)| <= buf.Length
    modifies buf
    ensures p == |LowFirst(u, base, upcase)|
    ensures buf[..p] == LowFirst(u, base, upcase) && buf[p..] == old(buf[p..])
  {
    hide LowFirst, Quot, Rem, DigitChar;
    ghost var all := LowFirst(u, base, upcase);
    ghost var done, rest := "", all;
    ghost var start := buf[..];
    var v, more := u, true;
    p := 0;
    while more
      invariant p == |done| <= |all| && buf[..p] == done && all == done + rest
      invariant rest == if more then LowFirst(v, base, upcase) else ""
      invariant buf[p..] == start[p..]
      decreases if more then v + 1 else 0
    {
      LowStep(v, base, upcase);
      var c := DigitChar(Rem(v, base), upcase);
      MoveOne(done, c, rest);
      DropOne(buf[..], start, p);
      Put(buf, p, c);
      p := p + 1;
      done, rest := done + [c], rest[1..];
      v := Quot(v, base);
      more := v != 0;
    }
  }

  lemma DropOne(a: string, b: string, p: nat)
    requires p < |a| && p <= |b| && a[p..] == b[p..]
    ensures a[p + 1..] == b[p + 1..]
  {
    assert a[p..][1..] == a[p + 1..] && b[p..][1..] == b[p + 1..];
  }

  lemma MoveOne(done: string, c: char, rest: string)
    requires rest != "" && rest[0] == c
    ensures done + rest == (done + [c]) + rest[1..]
  {}

  /** The padding, written behind `used` characters that stand for the number backward. */
  method WritePadding(buf: array<char>, used: nat, length: nat, neg: bool, ladjust: bool, pad: char)
    requires 0 < used <= length <= buf.Length && (neg ==> buf[used - 1] == '-')
    modifies buf
    ensures buf[length..] == old(buf[length..])
    ensures buf[..length] == if neg && !ladjust && pad == '0' then old(buf[..used - 1]) + Repeat('0', length - used) + "-"
                             else old(buf[..used]) + Repeat(if ladjust then ' ' else pad, length - used)
  {
    var padc := pad;
    if ladjust { padc := ' '; }
    if neg && !ladjust && padc == '0' {
      Fill(buf, used - 1, length - 1, padc);
      buf[length - 1] := '-';
    } else {
      Fill(buf, used, length, padc);
    }
  }

  /** Digits, sign and padding: the number backward. */
  method WriteBackward(buf: array<char>, u: nat, base: Base, negFlag: bool, width: int, ladjust: bool, pad: char, upcase: bool)
    returns (actualLength: nat, length: int)
    requires Max(width, |LowFirst(u, base, upcase)| + if negFlag then 1 else 0) <= buf.Length
    modifies buf
    ensures actualLength == |LowFirst(u, base, upcase)| + if negFlag then 1 else 0
    ensures actualLength <= length <= buf.Length
    ensures buf[..length] == Backward(u, base, negFlag, width, ladjust, pad, upcase)
    ensures buf[length..] == old(buf[length..])
  {
    hide LowFirst, Repeat;
    ghost var digits := LowFirst(u, base, upcase);
    var p := WriteDigits(buf, u, base, upcase);
    if negFlag {
      buf[p] := '-';
      assert buf[..p] == digits;
      p := p + 1;
      assert buf[..p] == digits + "-";
    }
    actualLength := p;
    length := width;
    if length < actualLength { length := actualLength; }
    WritePadding(buf, actualLength, length, negFlag, ladjust, pad);
    if !negFlag { assert digits + "" == digits; }
  }

  lemma SplitAt(s: string, b: string, tail: string, n: nat)
    requires n <= |b| && s[..] == b + tail
    ensures s[..n] == b[..n] && s[n..] == b[n..] + tail
  {}

  lemma JoinAll(a: string, b: string, c: string)
    ensures a + (b + c) == (a + b) + c
  {}

  /** PrintNum. The buffer must hold the result, which is all the source asks of its caller. */
  method PrintNum(buf: array<char>, u: nat, base: Base, negFlag: bool, width: int, ladjust: bool, pad: char, upcase: bool)
    returns (length: int)
    requires Max(width, |LowFirst(u, base, upcase)| + if negFlag then 1 else 0) <= buf.Length
    modifies buf
    ensures length == |Layout(u, base, negFlag, width, ladjust, pad, upcase)|
    ensures buf[..] == Layout(u, base, negFlag, width, ladjust, pad, upcase) + old(buf[length..])
  {
    ghost var b := Backward(u, base, negFlag, width, ladjust, pad, upcase);
    BackwardIsLayout(u, base, negFlag, width, ladjust, pad, upcase);
    hide LowFirst, Layout, Reverse, Repeat, Backward;
    var actualLength;
    actualLength, length := WriteBackward(buf, u, base, negFlag, width, ladjust, pad, upcase);
    ghost var tail := buf[length..];
    var n: nat := if ladjust then actualLength else length;
    assert buf[..] == b + tail;
    SplitAt(buf[..], b, tail, n);
    ReversePrefix(buf, n);
    JoinAll(Reverse(b[..n]), b[n..], tail);
    if !ladjust { assert b[..n] == b && b[n..] == "" && Reverse(b) + "" == Reverse(b); }
  }

  function TextLayout(s: string, length: int, ladjust: bool): string {
    if ladjust then s + Repeat(' ', Pad(length, |s|)) else Repeat(' ', Pad(length, |s|)) + s
  }

  /** The text is whole, at the left or at the right edge, and the rest is spaces. */
  lemma TextLayoutAt(s: string, length: int, ladjust: bool, k: nat)
    requires k < |TextLayout(s, length, ladjust)|
    ensures var t := TextLayout(s, length, ladjust);
            var n := |t| - |s|;
            && |t| == Max(length, |s|)
            && t[k] == if ladjust then (if k < |s| then s[k] else ' ') else (if k < n then ' ' else s[k - n])
  {}

  /** buf[at..at + |s|] = s. */
  method Copy(buf: array<char>, at: nat, s: string)
    requires at + |s| <= buf.Length
    modifies buf
    ensures forall k :: 0 <= k < buf.Length ==> buf[k] == if at <= k < at + |s| then s[k - at] else old(buf[k])
  {
    var i := 0;
    while i < |s|
      invariant 0 <= i <= |s|
      invariant forall k :: 0 <= k < buf.Length ==> buf[k] == if at <= k < at + i then s[k - at] else old(buf[k])
    {
      buf[at + i] := s[i];
      i := i + 1;
    }
  }

  /** PrintString: the whole string, never cut, with spaces on the side away from the edge. */
  method PrintString(buf: array<char>, s: string, width: int, ladjust: bool) returns (length: int)
    requires Max(width, |s|) <= buf.Length
    modifies buf
    ensures length == Max(width, |s|)
    ensures buf[..] == TextLayout(s, width, ladjust) + old(buf[length..])
  {
    length := width;
    if length < |s| { length := |s|; }
    if ladjust {
      Copy(buf, 0, s);
      Fill(buf, |s|, length, ' ');
    } else {
      Fill(buf, 0, length - |s|, ' ');
      Copy(buf, length - |s|, s);
    }
    assert buf[..length] == TextLayout(s, width, ladjust) && buf[length..] == old(buf[length..]);
  }

  /** PrintChar: a string of one character. */
  method PrintChar(buf: array<char>, c: char, width: int, ladjust: bool) returns (length: int)
    requires Max(width, 1) <= buf.Length
    modifies buf
    ensures length == Max(width, 1)
    ensures buf[..] == TextLayout([c], width, ladjust) + old(buf[length..])
  {
    length := width;
    if length < 1 { length := 1; }
    if ladjust {
      buf[0] := c;
      Fill(buf, 1, length, ' ');
      assert buf[..length] == [c] + Repeat(' ', length - 1);
    } else {
      Fill(buf, 0, length - 1, ' ');
      buf[length - 1] := c;
      assert buf[..length] == Repeat(' ', length - 1) + [c];
    }
    assert buf[length..] == old(buf[length..]);
  }
}
