/** The pipe of user/pipe.c: one reader and one writer around a ring of 32 bytes in a shared
    page, each preempted between any two statements. A step is one statement; it looks at or
    changes at most one variable that the other side changes. */
module PipeRing {
  const BY2PIPE: nat := 32

  newtype byte = n: int | 0 <= n < 256

  /** Where a piperead(n) call stands, and the bytes it has copied out. */
  datatype Reader =
    | RIdle
    | RTest(n: nat)                             // while (rpos >= wpos)
    | RAsk(n: nat, tested: nat)                 //   if closed return 0, else yield
    | RCheck(n: nat, out: seq<byte>)            // while (i < n && rpos < wpos)
    | RLoad(n: nat, out: seq<byte>)             //   rbuf[i] = p_buf[rpos % 32]
    | RInc(n: nat, out: seq<byte>, b: byte)     //   p_rpos++
    | RNext(n: nat, out: seq<byte>, b: byte)    //   i++

  /** Where a pipewrite(d) call stands, and how many bytes it has copied in. */
  datatype Writer =
    | WIdle
    | WTest(d: seq<byte>)                       // while (wpos - rpos >= 32)
    | WAsk(d: seq<byte>)                        //   if closed return 0, else yield
    | WCheck(d: seq<byte>, i: nat)              // while (i < n)
    | WPut(d: seq<byte>, i: nat)                //   p_buf[wpos % 32] = wbuf[i]
    | WInc(d: seq<byte>, i: nat)                //   p_wpos++
    | WNext(d: seq<byte>, i: nat)               //   i++
    | WWait(d: seq<byte>, i: nat)               //   while (i < n && wpos - rpos >= 32) yield

  /** What a completed piperead(n) returned; `tested` and `left` are what p_wpos was when it last
      found the ring empty and when it returned, if it gave up. */
  datatype ReadResult = Returned(n: nat, r: nat) | GaveUp(n: nat, tested: nat, left: nat)

  /** `got` is everything completed reads have returned, `accepted` the data of the writes that
      did not give up, `log` the bytes put into the ring so far, `given` and `results` what
      completed reads and writes were given and returned. `tested` in RAsk is what p_wpos was when
      the test failed. `open` says whether the writer still has its end. */
  datatype Pipe = Pipe(rpos: nat, wpos: nat, buf: seq<byte>, r: Reader, w: Writer, open: bool,
                       got: seq<byte>, accepted: seq<byte>, log: seq<byte>,
                       given: seq<ReadResult>, results: seq<(nat, nat)>)

  /** The environment calls, the writer closes its end, or one side runs one statement; `closed` is
      what _pipeisclosed answers if that statement asks it, and any answer is allowed. */
  datatype Step = Read(n: nat) | Write(d: seq<byte>) | Close | RunReader(closed: bool) | RunWriter(closed: bool)

  predicate Can(p: Pipe, s: Step) {
    match s
    case Read(_) => p.r.RIdle?
    case Write(_) => p.w.WIdle? && p.open
    case Close => p.w.WIdle? && p.open
    case RunReader(_) => !p.r.RIdle?
    case RunWriter(_) => !p.w.WIdle? && |p.buf| == BY2PIPE && WithinData(p.w)
  }

  predicate WithinData(w: Writer) {
    match w
    case WPut(d, i) => i < |d|
    case WInc(d, i) => i < |d|
    case _ => true
  }

  function ReaderStep(p: Pipe, closed: bool): Pipe
    requires !p.r.RIdle? && |p.buf| == BY2PIPE
  {
    match p.r
    case RTest(n) => p.(r := if p.rpos >= p.wpos then RAsk(n, p.wpos) else RCheck(n, []))
    case RAsk(n, tested) =>
      if closed then p.(r := RIdle, given := p.given + [GaveUp(n, tested, p.wpos)]) else p.(r := RTest(n))
    case RCheck(n, out) =>
      if |out| < n && p.rpos < p.wpos then p.(r := RLoad(n, out))
      else p.(r := RIdle, got := p.got + out, given := p.given + [Returned(n, |out|)])
    case RLoad(n, out) => p.(r := RInc(n, out, p.buf[p.rpos % BY2PIPE]))
    case RInc(n, out, b) => p.(rpos := p.rpos + 1, r := RNext(n, out, b))
    case RNext(n, out, b) => p.(r := RCheck(n, out + [b]))
  }

  function WriterStep(p: Pipe, closed: bool): Pipe
    requires !p.w.WIdle? && |p.buf| == BY2PIPE && WithinData(p.w)
  {
    match p.w
    case WTest(d) =>
      if p.wpos - p.rpos >= BY2PIPE then p.(w := WAsk(d)) else p.(w := WCheck(d, 0), accepted := p.accepted + d)
    case WAsk(d) => if closed then p.(w := WIdle, results := p.results + [(|d|, 0)]) else p.(w := WTest(d))
    case WCheck(d, i) =>
      if i < |d| then p.(w := WPut(d, i)) else p.(w := WIdle, results := p.results + [(|d|, i)])
    case WPut(d, i) => p.(buf := p.buf[p.wpos % BY2PIPE := d[i]], w := WInc(d, i))
    case WInc(d, i) => p.(wpos := p.wpos + 1, log := p.log + [d[i]], w := WNext(d, i))
    case WNext(d, i) => p.(w := WWait(d, i + 1))
    case WWait(d, i) => if i < |d| && p.wpos - p.rpos >= BY2PIPE then p else p.(w := WCheck(d, i))
  }

  function Next(p: Pipe, s: Step): Pipe
    requires Can(p, s) && |p.buf| == BY2PIPE
  {
    match s
    case Read(n) => if n == 0 then p.(given := p.given + [Returned(0, 0)]) else p.(r := RTest(n))
    case Write(d) => if d == [] then p.(results := p.results + [(0, 0)]) else p.(w := WTest(d))
    case Close => p.(open := false)
    case RunReader(closed) => ReaderStep(p, closed)
    case RunWriter(closed) => WriterStep(p, closed)
  }

  // ---------- the invariant ----------

  /** What the running read has taken out of the ring beyond `got`. */
  function Taken(r: Reader): seq<byte> {
    match r
    case RCheck(_, out) => out
    case RLoad(_, out) => out
    case RInc(_, out, _) => out
    case RNext(_, out, b) => out + [b]
    case _ => []
  }

  /** What the running write has still to put into the ring. */
  function Remaining(w: Writer): seq<byte> {
    match w
    case WCheck(d, i) => if i <= |d| then d[i..] else []
    case WPut(d, i) => if i <= |d| then d[i..] else []
    case WInc(d, i) => if i <= |d| then d[i..] else []
    case WNext(d, i) => if i < |d| then d[i + 1..] else []
    case WWait(d, i) => if i <= |d| then d[i..] else []
    case _ => []
  }

  predicate RingHolds(p: Pipe) {
    |p.buf| == BY2PIPE && |p.log| == p.wpos
    && forall j :: p.rpos <= j < p.wpos ==> p.buf[j % BY2PIPE] == p.log[j]
  }

  predicate ReaderOk(p: Pipe) {
    && p.rpos <= p.wpos == |p.log|
    && p.got + Taken(p.r) == p.log[..p.rpos]
    && (forall k :: 0 <= k < |p.given| ==> ReadOk(p.given[k]))
    && (match p.r
        case RIdle => true
        case RTest(n) => n > 0
        case RAsk(n, tested) => n > 0 && p.rpos == tested <= p.wpos
        case RLoad(n, out) => |out| < n && p.rpos < p.wpos
        case RInc(n, out, b) => |out| < n && p.rpos < p.wpos && b == p.log[p.rpos]
        case RNext(n, out, b) => |out| < n
        case RCheck(n, out) => |out| <= n && n > 0 && (out == [] ==> p.rpos < p.wpos))
  }

  /** A read of at least one byte that did not give up returned at least one, and no more than asked. */
  predicate ReadOk(r: ReadResult) {
    match r
    case Returned(n, k) => k <= n && (n > 0 ==> k > 0)
    case GaveUp(n, tested, left) => n > 0 && tested <= left
  }

  predicate WriterOk(p: Pipe) {
    && (p.open || p.w.WIdle?)
    && p.wpos - p.rpos <= BY2PIPE
    && p.accepted == p.log + Remaining(p.w)
    && (forall k :: 0 <= k < |p.results| ==> p.results[k].1 == 0 || p.results[k].1 == p.results[k].0)
    && (match p.w
        case WCheck(d, i) => i <= |d| && (i < |d| ==> p.wpos - p.rpos < BY2PIPE)
        case WPut(d, i) => i < |d| && p.wpos - p.rpos < BY2PIPE
        case WInc(d, i) => |p.buf| == BY2PIPE && i < |d| && p.wpos - p.rpos < BY2PIPE && p.buf[p.wpos % BY2PIPE] == d[i]
        case WNext(d, i) => i < |d|
        case WWait(d, i) => i <= |d|
        case _ => true)
  }

  predicate Inv(p: Pipe) { RingHolds(p) && ReaderOk(p) && WriterOk(p) }

  lemma DistinctSlots(j: nat, k: nat)
    requires j < k < j + BY2PIPE
    ensures j % BY2PIPE != k % BY2PIPE
  {}

  lemma TakeInv(p: Pipe)
    requires Inv(p) && p.r.RInc?
    ensures Inv(ReaderStep(p, false))
  {
    var q := ReaderStep(p, false);
    var RInc(n, out, b) := p.r;
    assert p.log[..p.rpos + 1] == p.log[..p.rpos] + [p.log[p.rpos]];
    assert q.got + (out + [b]) == (p.got + out) + [b];
    hide ReadOk, WriterOk;
  }

  lemma NextInv(p: Pipe)
    requires Inv(p) && p.r.RNext?
    ensures Inv(ReaderStep(p, false))
  {
    var RNext(n, out, b) := p.r;
    assert p.got + (out + [b]) == p.log[..p.rpos];
    hide ReadOk, WriterOk;
  }

  /** The statements that end a read or only look. */
  lemma LookInv(p: Pipe, closed: bool)
    requires Inv(p) && (p.r.RTest? || p.r.RAsk? || p.r.RCheck? || p.r.RLoad?)
    ensures Inv(ReaderStep(p, closed))
  {}

  lemma ReaderInv(p: Pipe, closed: bool)
    requires Inv(p) && !p.r.RIdle?
    ensures Inv(ReaderStep(p, closed))
  {
    hide Inv;
    match p.r
    case RNext(_, _, _) => NextInv(p);
    case RInc(_, _, _) => TakeInv(p);
    case _ => LookInv(p, closed);
  }

  lemma PutInv(p: Pipe)
    requires Inv(p) && p.w.WPut?
    ensures WithinData(p.w) && Inv(WriterStep(p, false))
  {
    var q := WriterStep(p, false);
    forall j | p.rpos <= j < p.wpos ensures q.buf[j % BY2PIPE] == p.log[j] { DistinctSlots(j, p.wpos); }
  }

  lemma CommitInv(p: Pipe)
    requires Inv(p) && p.w.WInc?
    ensures WithinData(p.w) && Inv(WriterStep(p, false))
  {
    var q := WriterStep(p, false);
    var WInc(d, i) := p.w;
    assert d[i..] == [d[i]] + d[i + 1..];
    assert q.accepted == q.log + d[i + 1..];
    assert q.log[..p.rpos] == p.log[..p.rpos];
  }

  lemma WriterLookInv(p: Pipe, closed: bool)
    requires Inv(p) && !p.w.WIdle? && !p.w.WPut? && !p.w.WInc?
    ensures WithinData(p.w) && Inv(WriterStep(p, closed))
  {
    if p.w.WTest? {
      assert p.accepted == p.log;
      assert p.accepted + p.w.d == p.log + p.w.d[0..];
    }
    hide ReadOk;
  }

  lemma WriterInv(p: Pipe, closed: bool)
    requires Inv(p) && !p.w.WIdle?
    ensures WithinData(p.w) && Inv(WriterStep(p, closed))
  {
    hide Inv;
    if p.w.WPut? {
      PutInv(p);
    } else if p.w.WInc? {
      CommitInv(p);
    } else {
      WriterLookInv(p, closed);
    }
  }

  /** Every statement of either side, in any order, keeps the invariant. */
  lemma StepInv(p: Pipe, s: Step)
    requires Inv(p) && Can(p, s)
    ensures Inv(Next(p, s))
  {
    match s
    case RunReader(closed) => ReaderInv(p, closed);
    case RunWriter(closed) => WriterInv(p, closed);
    case _ =>
  }

  /** pipe() leaves an empty ring; what its bytes are does not matter. */
  function New(buf: seq<byte>): Pipe { Pipe(0, 0, buf, RIdle, WIdle, true, [], [], [], [], []) }

  predicate Reaches(p: Pipe, steps: seq<Step>)
    requires |p.buf| == BY2PIPE
    decreases |steps|
  {
    steps == [] || (Can(p, steps[0]) && |Next(p, steps[0]).buf| == BY2PIPE && Reaches(Next(p, steps[0]), steps[1..]))
  }

  function Run(p: Pipe, steps: seq<Step>): Pipe
    requires |p.buf| == BY2PIPE && Reaches(p, steps)
    decreases |steps|
  {
    if steps == [] then p else Run(Next(p, steps[0]), steps[1..])
  }

  lemma {:induction false} RunInv(p: Pipe, steps: seq<Step>)
    requires Inv(p) && Reaches(p, steps)
    ensures Inv(Run(p, steps))
    decreases |steps|
  {
    if steps != [] {
      StepInv(p, steps[0]);
      RunInv(Next(p, steps[0]), steps[1..]);
    }
  }

  /** The pipe delivers a byte stream: under every interleaving, whatever _pipeisclosed
      answers, what reads have returned is a prefix of what writes were given, what is missing
      is exactly what the running read holds, the ring contains and the running write has left,
      the ring never holds more than 32 bytes, and a write that does not return 0 returns the
      length it was given. */
  lemma Stream(buf: seq<byte>, steps: seq<Step>)
    requires |buf| == BY2PIPE && Reaches(New(buf), steps)
    ensures var p := Run(New(buf), steps);
            && p.got <= p.accepted && 0 <= p.wpos - p.rpos <= BY2PIPE
            && p.accepted == p.got + Taken(p.r) + Ring(p) + Remaining(p.w)
            && forall k :: 0 <= k < |p.results| ==> p.results[k].1 == 0 || p.results[k].1 == p.results[k].0
  {
    RunInv(New(buf), steps);
    var p := Run(New(buf), steps);
    RingIsLog(p);
    assert p.log == p.log[..p.rpos] + p.log[p.rpos..];
  }

  /** The bytes the ring holds, oldest first. */
  function Ring(p: Pipe): seq<byte> {
    if p.rpos <= p.wpos && |p.buf| == BY2PIPE then
      seq(p.wpos - p.rpos, i requires 0 <= i < p.wpos - p.rpos => p.buf[(p.rpos + i) % BY2PIPE])
    else []
  }

  lemma RingIsLog(p: Pipe)
    requires Inv(p)
    ensures Ring(p) == p.log[p.rpos..]
  {}

  // ---------- reads that return nothing ----------

  /** A writer waits exactly while 32 bytes are unread, before its first byte as after any other, and a
      reader exactly while there are none. A reader that has begun returns as soon as it has all it asked
      for or has read all there is, and not before. Told that the other end is open, both look again. */
  lemma WhenToWait(p: Pipe, closed: bool)
    requires Inv(p)
    ensures p.w.WTest? ==> (WriterStep(p, closed).w == WAsk(p.w.d) <==> |Ring(p)| == 32)
    ensures p.w.WTest? ==> (WriterStep(p, closed).w == WCheck(p.w.d, 0) <==> |Ring(p)| < 32)
    ensures p.w.WWait? ==> (WriterStep(p, closed).w == p.w <==> p.w.i < |p.w.d| && |Ring(p)| == 32)
    ensures p.w.WWait? ==> (WriterStep(p, closed).w == WCheck(p.w.d, p.w.i) <==> p.w.i == |p.w.d| || |Ring(p)| < 32)
    ensures p.r.RTest? ==> (ReaderStep(p, closed).r.RAsk? <==> Ring(p) == [])
    ensures p.r.RTest? ==> (ReaderStep(p, closed).r == RCheck(p.r.n, []) <==> Ring(p) != [])
    ensures p.r.RCheck? ==> (ReaderStep(p, closed).r.RIdle? <==> |p.r.out| == p.r.n || Ring(p) == [])
    ensures p.r.RCheck? ==> (ReaderStep(p, closed).r == RLoad(p.r.n, p.r.out) <==> |p.r.out| < p.r.n && Ring(p) != [])
    ensures p.w.WAsk? ==> WriterStep(p, closed).w == if closed then WIdle else WTest(p.w.d)
    ensures p.r.RAsk? ==> ReaderStep(p, closed).r == if closed then RIdle else RTest(p.r.n)
  {}

  /** In every run, a completed read of n > 0 bytes returned between 1 and n of them, or gave up. */
  lemma ReadsReturn(buf: seq<byte>, steps: seq<Step>, k: nat)
    requires |buf| == BY2PIPE && Reaches(New(buf), steps) && k < |Run(New(buf), steps).given|
    ensures var r := Run(New(buf), steps).given[k];
            if r.Returned? then r.r <= r.n && (r.r == 0 <==> r.n == 0) else r.n > 0 && r.tested <= r.left
  {
    RunInv(New(buf), steps);
    assert ReadOk(Run(New(buf), steps).given[k]);
  }

  /** What a read leaves behind when it gives up, in every run: exactly the bytes that the writer
      committed since the test that found the ring empty. So a read that returns 0 misses data if
      and only if the writer committed something between that test and the answer. */
  lemma GiveUpMisses(buf: seq<byte>, steps: seq<Step>)
    requires |buf| == BY2PIPE && Reaches(New(buf), steps) && Run(New(buf), steps).r.RAsk?
    ensures var p := Run(New(buf), steps);
            && p.r.tested <= |p.log| && |p.buf| == BY2PIPE
            && var q := ReaderStep(p, true);
               && q.r.RIdle? && q.got == p.got && q.given == p.given + [GaveUp(p.r.n, p.r.tested, p.wpos)]
               && Ring(q) == p.log[p.r.tested..]
               && (Ring(q) != [] <==> p.wpos > p.r.tested)
  {
    RunInv(New(buf), steps);
    RingIsLog(ReaderStep(Run(New(buf), steps), true));
  }

  /** The answers of _pipeisclosed to the reader are true of the writer's end. */
  predicate Truthful(p: Pipe, steps: seq<Step>)
    requires |p.buf| == BY2PIPE && Reaches(p, steps)
    decreases |steps|
  {
    steps == []
    || ((steps[0].RunReader? && p.r.RAsk? ==> steps[0].closed == !p.open) && Truthful(Next(p, steps[0]), steps[1..]))
  }

  /** A read that gives up on a writer that has closed has reached the end of the stream, that is,
      everything accepted has been read, if and only if nothing was committed since its test. */
  lemma EndOfStream(buf: seq<byte>, steps: seq<Step>)
    requires |buf| == BY2PIPE && Reaches(New(buf), steps)
    requires var p := Run(New(buf), steps); p.r.RAsk? && !p.open
    ensures var p := Run(New(buf), steps);
            p.got == p.accepted <==> p.wpos == p.r.tested
  {
    RunInv(New(buf), steps);
    var p := Run(New(buf), steps);
    assert Remaining(p.w) == [];
    assert p.log[..p.rpos] + p.log[p.rpos..] == p.log;
    if p.wpos == p.r.tested { assert p.log[..p.rpos] == p.log; }
  }

  /** The reader finds the ring empty and is preempted; the writer writes a byte and closes; then
      the reader asks. */
  function LateWrite(x: byte): seq<Step> {
    [Read(1), RunReader(false), Write([x])]
    + [RunWriter(false), RunWriter(false), RunWriter(false), RunWriter(false), RunWriter(false), RunWriter(false),
       RunWriter(false)]
    + [Close, RunReader(true)]
  }

  lemma RunCons(p: Pipe, s: Step, rest: seq<Step>)
    requires |p.buf| == BY2PIPE && Can(p, s) && |Next(p, s).buf| == BY2PIPE && Reaches(Next(p, s), rest)
    requires s.RunReader? && p.r.RAsk? ==> s.closed == !p.open
    ensures Reaches(p, [s] + rest) && Run(p, [s] + rest) == Run(Next(p, s), rest)
    ensures Truthful(Next(p, s), rest) ==> Truthful(p, [s] + rest)
  {
    assert ([s] + rest)[1..] == rest;
  }

  lemma RunFirst(p: Pipe, a: seq<Step>)
    requires |p.buf| == BY2PIPE && Reaches(p, a) && Truthful(p, a) && a != []
    ensures Can(p, a[0]) && |Next(p, a[0]).buf| == BY2PIPE && (a[0].RunReader? && p.r.RAsk? ==> a[0].closed == !p.open)
    ensures Reaches(Next(p, a[0]), a[1..]) && Truthful(Next(p, a[0]), a[1..]) && Run(p, a) == Run(Next(p, a[0]), a[1..])
  {
    hide Next, Can;
  }

  lemma {:induction false} RunJoin(p: Pipe, a: seq<Step>, b: seq<Step>)
    requires |p.buf| == BY2PIPE && Reaches(p, a) && Truthful(p, a)
    requires |Run(p, a).buf| == BY2PIPE && Reaches(Run(p, a), b) && Truthful(Run(p, a), b)
    ensures Reaches(p, a + b) && Run(p, a + b) == Run(Run(p, a), b) && Truthful(p, a + b)
    decreases |a|
  {
    if a == [] {
      hide Next, Can;
      assert a + b == b;
    } else {
      hide *;
      RunFirst(p, a);
      RunJoin(Next(p, a[0]), a[1..], b);
      assert a + b == [a[0]] + (a[1..] + b);
      RunCons(p, a[0], a[1..] + b);
    }
  }

  lemma RunOne(p: Pipe, s: Step, q: Pipe)
    requires |p.buf| == BY2PIPE && Can(p, s) && Next(p, s) == q && |q.buf| == BY2PIPE
    requires s.RunReader? && p.r.RAsk? ==> s.closed == !p.open
    ensures Reaches(p, [s]) && Run(p, [s]) == q && Truthful(p, [s])
  {
    assert Reaches(q, []) && Run(q, []) == q && Truthful(q, []);
    hide Next, Can;
    RunCons(p, s, []);
    assert [s] + [] == [s];
  }

  /** The first three statements of the writer's part of that run: its byte is in the buffer. */
  lemma WriteFirst(p: Pipe, x: byte, q: Pipe)
    requires Inv(p) && p.w == WTest([x]) && p.rpos == p.wpos
    requires q == p.(buf := p.buf[p.wpos % BY2PIPE := x], w := WInc([x], 0), accepted := p.accepted + [x])
    ensures Reaches(p, [RunWriter(false)] + [RunWriter(false)] + [RunWriter(false)])
    ensures Run(p, [RunWriter(false)] + [RunWriter(false)] + [RunWriter(false)]) == q
    ensures Truthful(p, [RunWriter(false)] + [RunWriter(false)] + [RunWriter(false)])
  {
    var w := RunWriter(false);
    var p1 := p.(w := WCheck([x], 0), accepted := p.accepted + [x]);
    var p2 := p1.(w := WPut([x], 0));
    RunOne(p, w, p1);
    RunOne(p1, w, p2);
    RunOne(p2, w, q);
    hide Run, Reaches, Truthful, Next, Inv;
    RunJoin(p, [w], [w]);
    RunJoin(p, [w] + [w], [w]);
  }

  /** The other four: it is committed, and the write returns. */
  lemma WriteLast(p: Pipe, x: byte, q: Pipe)
    requires |p.buf| == BY2PIPE && p.w == WInc([x], 0) && p.rpos == p.wpos
    requires q == p.(wpos := p.wpos + 1, w := WIdle, log := p.log + [x], results := p.results + [(1, 1)])
    ensures Reaches(p, [RunWriter(false)] + [RunWriter(false)] + [RunWriter(false)] + [RunWriter(false)])
    ensures Run(p, [RunWriter(false)] + [RunWriter(false)] + [RunWriter(false)] + [RunWriter(false)]) == q
    ensures Truthful(p, [RunWriter(false)] + [RunWriter(false)] + [RunWriter(false)] + [RunWriter(false)])
  {
    var w := RunWriter(false);
    var p1 := p.(wpos := p.wpos + 1, log := p.log + [x], w := WNext([x], 0));
    var p2 := p1.(w := WWait([x], 1));
    var p3 := p2.(w := WCheck([x], 1));
    RunOne(p, w, p1);
    RunOne(p1, w, p2);
    RunOne(p2, w, p3);
    RunOne(p3, w, q);
    hide Run, Reaches, Truthful, Next;
    RunJoin(p, [w], [w]);
    RunJoin(p, [w] + [w], [w]);
    RunJoin(p, [w] + [w] + [w], [w]);
  }

  lemma LateInv(q: Pipe, x: byte)
    requires |q.buf| == BY2PIPE && q == Pipe(0, 0, q.buf, RAsk(1, 0), WTest([x]), true, [], [], [], [], [])
    ensures Inv(q)
  {}

  /** Before and after the writer's part. */
  lemma LateStart(buf: seq<byte>, x: byte, q: Pipe)
    requires |buf| == BY2PIPE && q == Pipe(0, 0, buf, RAsk(1, 0), WTest([x]), true, [], [], [], [], [])
    ensures var steps := [Read(1)] + [RunReader(false)] + [Write([x])];
            Reaches(New(buf), steps) && Truthful(New(buf), steps) && Run(New(buf), steps) == q
  {
    var p0 := New(buf);
    var p1 := p0.(r := RTest(1));
    var p2 := p1.(r := RAsk(1, 0));
    RunOne(p0, Read(1), p1);
    RunOne(p1, RunReader(false), p2);
    RunOne(p2, Write([x]), q);
    hide Run, Reaches, Truthful, Next;
    RunJoin(p0, [Read(1)], [RunReader(false)]);
    RunJoin(p0, [Read(1)] + [RunReader(false)], [Write([x])]);
  }

  lemma LateEnd(q: Pipe, x: byte)
    requires |q.buf| == BY2PIPE && q.r == RAsk(1, 0) && q.w.WIdle? && q.open && q.rpos == 0 && q.wpos == 1
    requires q.buf[0] == x && q.given == [] && q.got == [] && q.accepted == [x]
    ensures var steps := [Close] + [RunReader(true)];
            && Reaches(q, steps) && Truthful(q, steps)
            && var p := Run(q, steps);
               p.given == [GaveUp(1, 0, 1)] && p.got == [] && Ring(p) == [x] && p.accepted == [x] && !p.open
  {
    var c := q.(open := false);
    var e := c.(r := RIdle, given := [GaveUp(1, 0, 1)]);
    RunOne(q, Close, c);
    RunOne(c, RunReader(true), e);
    assert Ring(e) == [x];
    hide Run, Reaches, Truthful, Next;
    RunJoin(q, [Close], [RunReader(true)]);
  }

  /** A read can return 0 with data in the ring although every answer it was given was true. */
  lemma ReadsMissLateData(buf: seq<byte>, x: byte)
    requires |buf| == BY2PIPE
    ensures Reaches(New(buf), LateWrite(x)) && Truthful(New(buf), LateWrite(x))
    ensures var p := Run(New(buf), LateWrite(x));
            p.given == [GaveUp(1, 0, 1)] && p.got == [] && Ring(p) == [x] && p.accepted == [x] && !p.open
  {
    hide Next, Run, Reaches, Truthful, Inv;
    var w := RunWriter(false);
    var p3 := Pipe(0, 0, buf, RAsk(1, 0), WTest([x]), true, [], [], [], [], []);
    var p6 := p3.(buf := buf[0 := x], w := WInc([x], 0), accepted := [x]);
    var q := p6.(wpos := 1, w := WIdle, log := [x], results := [(1, 1)]);
    LateStart(buf, x, p3);
    LateInv(p3, x);
    WriteFirst(p3, x, p6);
    WriteLast(p6, x, q);
    LateEnd(q, x);
    var a, b, c, d := [Read(1)] + [RunReader(false)] + [Write([x])], [w] + [w] + [w], [w] + [w] + [w] + [w],
                      [Close] + [RunReader(true)];
    RunJoin(New(buf), a, b);
    RunJoin(New(buf), a + b, c);
    RunJoin(New(buf), a + b + c, d);
    assert LateWrite(x) == a + b + c + d;
  }
}
