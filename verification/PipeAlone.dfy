/** What one side of a pipe does when the other does not run: a read returns the first bytes that are unread,
    as many as it asked for if there are that many, and a write that fits puts its bytes behind them. */
module PipeAlone {
  import opened PipeRing

  function Times(s: Step, k: nat): seq<Step> { if k == 0 then [] else [s] + Times(s, k - 1) }

  function Min(a: int, b: int): int { if a < b then a else b }

  /** One statement in front of a run of the same side. */
  lemma OneFirst(p: Pipe, s: Step, q: Pipe, k: nat)
    requires |p.buf| == BY2PIPE && Can(p, s) && q == Next(p, s) && |q.buf| == BY2PIPE && Reaches(q, Times(s, k))
    requires s.RunReader? ==> !p.r.RAsk?
    ensures Reaches(p, Times(s, k + 1)) && Run(p, Times(s, k + 1)) == Run(q, Times(s, k))
  {
    hide Next, Can;
    RunCons(p, s, Times(s, k));
  }

  // ---------- a read ----------

  const R := RunReader(false)

  /** Once around the loop of piperead. */
  lemma TakeOne(p: Pipe, k: nat)
    requires Inv(p) && p.r.RCheck? && |p.r.out| < p.r.n && p.rpos < p.wpos
    ensures var q := p.(rpos := p.rpos + 1, r := RCheck(p.r.n, p.r.out + [p.log[p.rpos]]));
            && Inv(q)
            && (Reaches(q, Times(R, k)) ==> Reaches(p, Times(R, k + 4)) && Run(p, Times(R, k + 4)) == Run(q, Times(R, k)))
  {
    var RCheck(n, out) := p.r;
    var b := p.log[p.rpos];
    var p1 := p.(r := RLoad(n, out));
    var p2 := p.(r := RInc(n, out, b));
    var p3 := p.(rpos := p.rpos + 1, r := RNext(n, out, b));
    var p4 := p3.(r := RCheck(n, out + [b]));
    assert Next(p, R) == p1 && Next(p1, R) == p2 && Next(p2, R) == p3 && Next(p3, R) == p4;
    assert |p.buf| == BY2PIPE;
    hide RingHolds, ReaderOk, WriterOk, Next;
    StepInv(p, R);
    StepInv(p1, R);
    StepInv(p2, R);
    StepInv(p3, R);
    hide *;
    if Reaches(p4, Times(R, k)) { TakeRuns(p, p1, p2, p3, p4, k); }
  }

  lemma TakeRuns(p: Pipe, p1: Pipe, p2: Pipe, p3: Pipe, p4: Pipe, k: nat)
    requires |p.buf| == |p1.buf| == |p2.buf| == |p3.buf| == |p4.buf| == BY2PIPE
    requires Can(p, R) && Can(p1, R) && Can(p2, R) && Can(p3, R) && !p.r.RAsk? && !p1.r.RAsk? && !p2.r.RAsk? && !p3.r.RAsk?
    requires Next(p, R) == p1 && Next(p1, R) == p2 && Next(p2, R) == p3 && Next(p3, R) == p4 && Reaches(p4, Times(R, k))
    ensures Reaches(p, Times(R, k + 4)) && Run(p, Times(R, k + 4)) == Run(p4, Times(R, k))
  {
    hide Can, Next, Reaches, Run, Times;
    OneFirst(p3, R, p4, k);
    OneFirst(p2, R, p3, k + 1);
    OneFirst(p1, R, p2, k + 2);
    OneFirst(p, R, p1, k + 3);
  }

  /** What the pipe is when a reader at the head of its loop has taken m more bytes and returned. */
  function Finished(p: Pipe, m: nat): Pipe
    requires p.r.RCheck? && p.rpos + m <= |p.log|
  {
    p.(r := RIdle, rpos := p.rpos + m, got := p.got + (p.r.out + p.log[p.rpos..p.rpos + m]),
       given := p.given + [Returned(p.r.n, |p.r.out| + m)])
  }

  lemma ReadEnds(p: Pipe)
    requires Inv(p) && p.r.RCheck? && (|p.r.out| == p.r.n || p.rpos == p.wpos)
    ensures Reaches(p, Times(R, 1)) && Run(p, Times(R, 1)) == Finished(p, 0)
  {
    assert p.r.out + p.log[p.rpos..p.rpos] == p.r.out;
    var q := Next(p, R);
    assert q == Finished(p, 0);
    OneFirst(p, R, q, 0);
  }

  lemma FinishedStep(p: Pipe, m: nat)
    requires p.r.RCheck? && m > 0 && p.rpos + m <= |p.log|
    ensures Finished(p, m) == Finished(p.(rpos := p.rpos + 1, r := RCheck(p.r.n, p.r.out + [p.log[p.rpos]])), m - 1)
  {
    assert p.log[p.rpos..p.rpos + m] == [p.log[p.rpos]] + p.log[p.rpos + 1..p.rpos + m];
  }

  lemma {:induction false} ReadLoop(p: Pipe, m: nat)
    requires Inv(p) && p.r.RCheck? && m == Min(p.r.n - |p.r.out|, p.wpos - p.rpos)
    ensures p.rpos + m <= |p.log| && Reaches(p, Times(R, 4 * m + 1)) && Run(p, Times(R, 4 * m + 1)) == Finished(p, m)
    decreases m
  {
    hide RingHolds, WriterOk, Run, Reaches, Finished, Times;
    if m == 0 {
      ReadEnds(p);
    } else {
      TakeOne(p, 4 * (m - 1) + 1);
      ReadLoop(p.(rpos := p.rpos + 1, r := RCheck(p.r.n, p.r.out + [p.log[p.rpos]])), m - 1);
      FinishedStep(p, m);
    }
  }

  /** A read of n bytes has returned the first m that were unread, and nothing else has happened. */
  predicate Took(p: Pipe, q: Pipe, n: nat, m: nat) {
    && m <= |Ring(p)| && q.r == RIdle && q.got == p.got + Ring(p)[..m] && Ring(q) == Ring(p)[m..]
    && q.given == p.given + [Returned(n, m)] && q.w == p.w && q.accepted == p.accepted && q.results == p.results
  }

  /** A read that runs by itself with unread bytes in the ring returns, and returns the first of them: all it
      asked for, or all there are. */
  lemma ReadAlone(p: Pipe, n: nat)
    requires Inv(p) && p.r == RTest(n) && Ring(p) != []
    ensures var m := Min(n, |Ring(p)|); Reaches(p, Times(R, 4 * m + 2)) && Took(p, Run(p, Times(R, 4 * m + 2)), n, m)
  {
    hide *;
    var p1 := p.(r := RCheck(n, []));
    var m := ReadStarts(p, n, p1);
    ReadLoop(p1, m);
    OneFirst(p, R, p1, 4 * m + 1);
    RunInv(p, Times(R, 4 * m + 2));
    ReadTook(p, n, p1, m, Run(p, Times(R, 4 * m + 2)));
  }

  lemma ReadStarts(p: Pipe, n: nat, p1: Pipe) returns (m: nat)
    requires Inv(p) && p.r == RTest(n) && Ring(p) != [] && p1 == p.(r := RCheck(n, []))
    ensures |p.buf| == |p1.buf| == BY2PIPE && Can(p, R) && p1 == Next(p, R) && Inv(p1) && R.RunReader? && !p.r.RAsk?
    ensures p1.r.RCheck? && m <= |Ring(p)| && m == Min(n, |Ring(p)|) == Min(p1.r.n - |p1.r.out|, p1.wpos - p1.rpos)
  {
    StepInv(p, R);
    m := Min(n, |Ring(p)|);
  }

  lemma ReadTook(p: Pipe, n: nat, p1: Pipe, m: nat, q: Pipe)
    requires Inv(p) && Inv(q) && p.r == RTest(n) && p1 == p.(r := RCheck(n, [])) && m <= |Ring(p)|
    requires p1.rpos + m <= |p1.log| && q == Finished(p1, m)
    ensures Took(p, q, n, m)
  {
    RingIsLog(p);
    RingIsLog(q);
    hide RingHolds, ReaderOk, WriterOk, Ring;
    assert p.rpos + m <= |p.log|;
    assert p.log[p.rpos..][..m] == p.log[p.rpos..p.rpos + m];
    assert [] + p.log[p.rpos..p.rpos + m] == p.log[p.rpos..p.rpos + m];
  }

  // ---------- a write ----------

  const W := RunWriter(false)

  /** What a writer at the head of its loop leaves when it has put the rest of its bytes; which bytes the
      buffer holds is the invariant's to say. */
  predicate Written(p: Pipe, q: Pipe)
    requires p.w.WCheck? && p.w.i <= |p.w.d|
  {
    q == p.(buf := q.buf, w := WIdle, wpos := p.wpos + |p.w.d| - p.w.i, log := p.log + p.w.d[p.w.i..],
            results := p.results + [(|p.w.d|, |p.w.d|)])
  }

  /** One byte after another: the statements of the loop of pipewrite when the ring has room. */
  lemma PutOne(p: Pipe, k: nat)
    requires Inv(p) && p.w.WCheck? && p.w.i < |p.w.d| && |p.w.d| - p.w.i <= 32 - (p.wpos - p.rpos)
    ensures var q := p.(buf := p.buf[p.wpos % BY2PIPE := p.w.d[p.w.i]], wpos := p.wpos + 1, log := p.log + [p.w.d[p.w.i]],
                        w := WCheck(p.w.d, p.w.i + 1));
            && Inv(q)
            && (Reaches(q, Times(W, k)) ==> Reaches(p, Times(W, k + 5)) && Run(p, Times(W, k + 5)) == Run(q, Times(W, k)))
  {
    var WCheck(d, i) := p.w;
    var p1 := p.(w := WPut(d, i));
    var p2 := p.(buf := p.buf[p.wpos % BY2PIPE := d[i]], w := WInc(d, i));
    var p3 := p2.(wpos := p.wpos + 1, log := p.log + [d[i]], w := WNext(d, i));
    var p4 := p3.(w := WWait(d, i + 1));
    var p5 := p4.(w := WCheck(d, i + 1));
    assert Next(p, W) == p1 && Next(p1, W) == p2 && Next(p2, W) == p3 && Next(p3, W) == p4 && Next(p4, W) == p5;
    assert |p.buf| == BY2PIPE;
    hide RingHolds, ReaderOk, WriterOk, Next;
    StepInv(p, W);
    StepInv(p1, W);
    StepInv(p2, W);
    StepInv(p3, W);
    StepInv(p4, W);
    hide *;
    if Reaches(p5, Times(W, k)) { PutRuns(p, p1, p2, p3, p4, p5, k); }
  }

  lemma PutRuns(p: Pipe, p1: Pipe, p2: Pipe, p3: Pipe, p4: Pipe, p5: Pipe, k: nat)
    requires |p.buf| == |p1.buf| == |p2.buf| == |p3.buf| == |p4.buf| == |p5.buf| == BY2PIPE
    requires Can(p, W) && Can(p1, W) && Can(p2, W) && Can(p3, W) && Can(p4, W)
    requires Next(p, W) == p1 && Next(p1, W) == p2 && Next(p2, W) == p3 && Next(p3, W) == p4 && Next(p4, W) == p5
    requires Reaches(p5, Times(W, k))
    ensures Reaches(p, Times(W, k + 5)) && Run(p, Times(W, k + 5)) == Run(p5, Times(W, k))
  {
    hide Can, Next, Reaches, Run, Times;
    OneFirst(p4, W, p5, k);
    OneFirst(p3, W, p4, k + 1);
    OneFirst(p2, W, p3, k + 2);
    OneFirst(p1, W, p2, k + 3);
    OneFirst(p, W, p1, k + 4);
  }

  lemma {:induction false} WriteLoop(p: Pipe, m: nat)
    requires Inv(p) && p.w.WCheck? && p.w.i <= |p.w.d| && m == |p.w.d| - p.w.i && m <= 32 - (p.wpos - p.rpos)
    ensures Reaches(p, Times(W, 5 * m + 1)) && Written(p, Run(p, Times(W, 5 * m + 1)))
    decreases m
  {
    assert |p.buf| == BY2PIPE;
    hide RingHolds, ReaderOk, WriterOk;
    if m == 0 {
      assert p.log + p.w.d[p.w.i..] == p.log;
      OneFirst(p, W, Next(p, W), 0);
    } else {
      var q := p.(buf := p.buf[p.wpos % BY2PIPE := p.w.d[p.w.i]], wpos := p.wpos + 1, log := p.log + [p.w.d[p.w.i]],
                  w := WCheck(p.w.d, p.w.i + 1));
      assert p.log + p.w.d[p.w.i..] == q.log + p.w.d[p.w.i + 1..];
      hide Run, Reaches, Times;
      PutOne(p, 5 * (m - 1) + 1);
      WriteLoop(q, m - 1);
    }
  }

  /** A write of d has returned its length, with d behind what was unread, and nothing else has happened. */
  predicate Added(p: Pipe, q: Pipe, d: seq<byte>) {
    && q.w == WIdle && Ring(q) == Ring(p) + d && q.accepted == p.accepted + d
    && q.results == p.results + [(|d|, |d|)] && q.r == p.r && q.got == p.got && q.given == p.given
  }

  /** A write that runs by itself and fits into the ring returns its length, with its bytes behind those that
      were unread. */
  lemma WriteAlone(p: Pipe, d: seq<byte>)
    requires Inv(p) && p.w == WTest(d) && d != [] && |Ring(p)| + |d| <= 32
    ensures Reaches(p, Times(W, 5 * |d| + 2)) && Added(p, Run(p, Times(W, 5 * |d| + 2)), d)
  {
    var p1 := p.(w := WCheck(d, 0), accepted := p.accepted + d);
    WriteStarts(p, d, p1);
    hide *;
    WriteLoop(p1, |d|);
    OneFirst(p, W, p1, 5 * |d| + 1);
    RunInv(p, Times(W, 5 * |d| + 2));
    WriteEnds(p, d, p1, Run(p, Times(W, 5 * |d| + 2)));
  }

  lemma WriteStarts(p: Pipe, d: seq<byte>, p1: Pipe)
    requires Inv(p) && p.w == WTest(d) && d != [] && |Ring(p)| + |d| <= 32
    requires p1 == p.(w := WCheck(d, 0), accepted := p.accepted + d)
    ensures |p.buf| == |p1.buf| == BY2PIPE && Can(p, W) && p1 == Next(p, W) && Inv(p1) && |d| <= 32 - (p1.wpos - p1.rpos)
    ensures p1.w.WCheck? && p1.w.d == d && p1.w.i == 0 && W.RunWriter?
  {
    assert |Ring(p)| == p.wpos - p.rpos;
    StepInv(p, W);
  }

  lemma WriteEnds(p: Pipe, d: seq<byte>, p1: Pipe, q: Pipe)
    requires Inv(p) && Inv(q) && p1 == p.(w := WCheck(d, 0), accepted := p.accepted + d) && Written(p1, q)
    ensures Added(p, q, d)
  {
    RingIsLog(p);
    RingIsLog(q);
    hide RingHolds, WriterOk, Ring;
    assert d[0..] == d;
    assert (p.log + d)[p.rpos..] == p.log[p.rpos..] + d;
  }
}
