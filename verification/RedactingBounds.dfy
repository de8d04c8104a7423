/** How much the streaming redactor can hold back, and when it never has to cut. */
module RedactingBounds {
  import opened Basics
  import opened Redaction
  import opened RedactingStream

  function Longest(ts: seq<string>): nat {
    if ts == [] then 0 else Max(|ts[0]|, Longest(ts[1..]))
  }

  lemma {:induction false} NoTargetIsLonger(ts: seq<string>, v: string)
    requires v in ts
    ensures |v| <= Longest(ts)
  {
    if v != ts[0] {
      assert v in ts[1..];
      NoTargetIsLonger(ts[1..], v);
    }
  }

  lemma HoldIsShort(ts: seq<string>, buf: string)
    ensures Hold(ts, buf) == 0 || Hold(ts, buf) < Longest(ts)
  {
    HoldIsLongest(ts, buf, |buf|);
    forall v | v in ts ensures |v| <= Longest(ts) {
      NoTargetIsLonger(ts, v);
    }
  }

  /** Every cut of `buf` up to `u` splits an occurrence that is complete in `buf`. */
  ghost predicate UncuttableTo(ts: seq<string>, buf: string, u: nat) {
    u <= |buf| && forall p | 0 < p <= u :: !Safe(ts, buf, p)
  }

  /** The partial line, minus a head no later overflow can cut inside, is small. */
  ghost predicate Bounded(ts: seq<string>, limit: nat, buf: string) {
    && NEWLINE !in buf
    && exists u :: UncuttableTo(ts, buf, u) && |buf| - u < Max(limit, Longest(ts))
  }

  lemma UnsafeExtends(ts: seq<string>, s: string, f: string, c: int)
    requires !Safe(ts, s, c)
    ensures !Safe(ts, s + f, c)
  {
    if Safe(ts, s + f, c) {
      SafeInPrefix(ts, s, f, c);
    }
  }

  /** Above a safe cut `c`, an unsafe position stays unsafe once the head is dropped. */
  lemma UnsafeAfterDrop(ts: seq<string>, s: string, c: nat, p: nat)
    requires c < p && c <= |s| && Safe(ts, s, c) && !Safe(ts, s, p)
    ensures !Safe(ts, s[c..], p - c)
  {
    var v, i :| v in ts && Straddles(s, v, i, p);
    assert !Straddles(s, v, i, c);
    assert s[c..][i - c..i - c + |v|] == s[i..i + |v|];
    assert Straddles(s[c..], v, i - c, p - c);
  }

  /** After any overflow the partial line is bounded again, even when the cut was
      lowered to almost nothing: all positions it was lowered past stay uncuttable. */
  lemma OverflowRebounds(ts: seq<string>, limit: nat, w: Stream)
    requires NonEmptyTargets(ts) && 0 < limit && NEWLINE !in w.buf
    ensures Bounded(ts, limit, Overflow(ts, limit, w).buf)
  {
    hide Redact;
    HoldIsShort(ts, w.buf);
    var after := Overflow(ts, limit, w).buf;
    var u := 0;
    if |w.buf| >= limit && SafeCut(ts, w.buf) > 0 {
      var c, raw := SafeCut(ts, w.buf), RawCut(ts, w.buf);
      u := raw - c;
      GreatestSafeIsGreatest(ts, w.buf, raw);
      forall p | 0 < p <= u ensures !Safe(ts, after, p) {
        UnsafeAfterDrop(ts, w.buf, c, c + p);
      }
    }
    assert UncuttableTo(ts, after, u);
  }

  /** An overflow either drops past everything uncuttable or leaves a held tail only. */
  lemma OverflowDropsPast(ts: seq<string>, limit: nat, w: Stream, u: nat)
    requires NonEmptyTargets(ts) && 0 < limit && UncuttableTo(ts, w.buf, u)
    ensures var after := Overflow(ts, limit, w).buf;
            |after| < Max(limit, Longest(ts)) || |after| < |w.buf| - u
  {
    hide Redact;
    HoldIsShort(ts, w.buf);
    GreatestSafeIsGreatest(ts, w.buf, RawCut(ts, w.buf));
  }

  /** Forwarding complete lines keeps everything, or less than the new chunk. */
  lemma LinesLeaveTail(ts: seq<string>, w: Stream, p: string)
    requires NonEmptyTargets(ts) && NEWLINE !in w.buf
    ensures var m := AfterLines(ts, w, p).buf;
            NEWLINE !in m && (m == w.buf + p || |m| < |p|)
  {
    hide Redact;
    var buf := w.buf + p;
    var n := LastNewline(buf);
    assert forall k | 0 <= k < |w.buf| :: buf[k] == w.buf[k];
    assert n < 0 ==> buf[0..] == buf;
    assert n < 0 || |w.buf| <= n;
  }

  /** One Write leaves less than max(limit, longest target) + |p| bytes buffered. */
  lemma WriteIsBounded(ts: seq<string>, limit: nat, w: Stream, p: string)
    requires NonEmptyTargets(ts) && 0 < limit && Bounded(ts, limit, w.buf)
    ensures var after := Step(ts, limit, w, Write(p)).buf;
            |after| < Max(limit, Longest(ts)) + |p| && Bounded(ts, limit, after)
  {
    hide Redact, SafeCut, RawCut, AfterLines;
    var m := AfterLines(ts, w, p);
    LinesLeaveTail(ts, w, p);
    OverflowRebounds(ts, limit, m);
    var u :| UncuttableTo(ts, w.buf, u) && |w.buf| - u < Max(limit, Longest(ts));
    if m.buf == w.buf + p {
      forall q | 0 < q <= u ensures !Safe(ts, m.buf, q) {
        UnsafeExtends(ts, w.buf, p, q);
      }
      OverflowDropsPast(ts, limit, m, u);
    } else {
      OverflowDropsPast(ts, limit, m, 0);
    }
  }

  lemma {:induction false} EveryRunIsBounded(ts: seq<string>, limit: nat, ops: seq<Op>)
    requires NonEmptyTargets(ts) && 0 < limit
    ensures Bounded(ts, limit, RunOf(ts, limit, ops).w.buf)
  {
    hide RunStep, Step;
    if ops == [] {
      assert UncuttableTo(ts, "", 0);
    } else {
      var r, op := RunOf(ts, limit, ops[..|ops| - 1]), ops[|ops| - 1];
      EveryRunIsBounded(ts, limit, ops[..|ops| - 1]);
      RunFollowsSteps(ts, limit, r, op);
      StepIsBounded(ts, limit, r.w, op);
    }
  }

  lemma StepIsBounded(ts: seq<string>, limit: nat, w: Stream, op: Op)
    requires NonEmptyTargets(ts) && 0 < limit && Bounded(ts, limit, w.buf)
    ensures Bounded(ts, limit, Step(ts, limit, w, op).buf)
  {
    hide Redact, Overflow;
    match op
    case Write(p) =>
      WriteIsBounded(ts, limit, w, p);
    case Flush =>
      if w.buf != "" {
        assert Step(ts, limit, w, op).buf == "";
        assert UncuttableTo(ts, "", 0);
      }
  }

  /** The memory bound over whole runs: whatever was written before, the partial line
      kept after Write(p) is shorter than max(limit, longest target) + |p|. */
  lemma BufferBound(ts: seq<string>, limit: nat, ops: seq<Op>, p: string)
    requires NonEmptyTargets(ts) && 0 < limit
    ensures |RunOf(ts, limit, ops + [Write(p)]).w.buf| < Max(limit, Longest(ts)) + |p|
  {
    hide RunStep, Step;
    var r := RunOf(ts, limit, ops);
    EveryRunIsBounded(ts, limit, ops);
    assert (ops + [Write(p)])[..|ops|] == ops;
    RunFollowsSteps(ts, limit, r, Write(p));
    WriteIsBounded(ts, limit, r.w, p);
  }

  // ---------------------------------------------------------------------------
  // Streams of ordinary lines
  // ---------------------------------------------------------------------------

  /** No partial line reaches the bound after any of the chunks. */
  predicate ShortLines(limit: nat, ps: seq<string>) {
    forall n | 0 <= n <= |ps| :: |Tail(Concat(ps[..n]))| < limit
  }

  lemma TailSnoc(s: string, c: char)
    ensures Tail(s + [c]) == if c == NEWLINE then "" else Tail(s) + [c]
  {
    assert (s + [c])[..|s|] == s;
  }

  lemma {:induction false} TailAfterAppend(s: string, p: string)
    ensures Tail(s + p) == Tail(Tail(s) + p)
    decreases |p|
  {
    hide Tail;
    if p == "" {
      assert s + p == s && Tail(s) + p == Tail(s);
      TailIsLine(s);
    } else {
      var q, c := p[..|p| - 1], p[|p| - 1];
      TailAfterAppend(s, q);
      TailSnoc(s + q, c);
      TailSnoc(Tail(s) + q, c);
      assert p == q + [c];
      ConcatAssociates(s, q, [c]);
      ConcatAssociates(Tail(s), q, [c]);
    }
  }

  lemma TailIsLine(s: string)
    ensures Tail(Tail(s)) == Tail(s)
  {
    var t := Tail(s);
    assert forall k | 0 <= k < |t| :: t[k] == s[LastNewline(s) + 1 + k];
    assert LastNewline(t) == -1;
  }

  lemma TailOfNothing()
    ensures Tail("") == ""
  {}

  lemma ShortLineStep(ts: seq<string>, limit: nat, r: Run, p: string)
    requires NonEmptyTargets(ts) && r.past == [] && r.w.buf == Tail(r.fed)
    requires |Tail(r.fed + p)| < limit
    ensures var after := RunStep(ts, limit, r, Write(p));
            after.past == [] && after.w.buf == Tail(r.fed + p)
            && after.kept == r.kept + (r.w.buf + p)[..LastNewline(r.w.buf + p) + 1]
  {
    hide Redact, LastNewline;
    TailAfterAppend(r.fed, p);
  }

  /** A stream of short lines never overflows: what is buffered is the current partial
      line and what was forwarded is every complete line. */
  lemma {:induction false} ShortLinesNeverCut(ts: seq<string>, limit: nat, ps: seq<string>)
    requires NonEmptyTargets(ts) && ShortLines(limit, ps)
    ensures var r := RunOf(ts, limit, Chunks(ps));
            r.past == [] && r.w.buf == Tail(Concat(ps))
  {
    hide RunStep, Tail;
    if ps == [] {
      TailOfNothing();
    } else {
      var n := |ps| - 1;
      forall k | 0 <= k <= n ensures |Tail(Concat(ps[..n][..k]))| < limit {
        assert ps[..n][..k] == ps[..k];
      }
      ShortLinesNeverCut(ts, limit, ps[..n]);
      assert Chunks(ps)[..n] == Chunks(ps[..n]);
      assert ps[..|ps|] == ps;
      ChunksFeedConcat(ts, limit, ps[..n]);
      ShortLineStep(ts, limit, RunOf(ts, limit, Chunks(ps[..n])), ps[n]);
    }
  }
}
