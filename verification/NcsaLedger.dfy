/** The line prefixer on its own, over runs of any Writes and Flushes, over-long lines
    included: no byte is lost, doubled or reordered, and where the prefix goes. */
module NcsaLedger {
  import opened Basics
  import opened Redaction
  import opened RedactingStream
  import opened RedactingBounds
  import opened NcsaWriters

  /** The prefixer after `ops`, and what went into it: the chunks, and a newline for every
      Flush that found a partial line. */
  datatype Fed = Fed(w: Stream, input: string)

  function FedWith(prefix: string, limit: nat, ops: seq<Op>): Fed {
    if ops == [] then Fed(START.w, "")
    else
      var b, op := FedWith(prefix, limit, ops[..|ops| - 1]), ops[|ops| - 1];
      Fed(PrefixStep(prefix, limit, b.w, op),
          match op
          case Write(p) => b.input + p
          case Flush => b.input + if b.w.buf == "" then "" else [NEWLINE])
  }

  /** A whole line, or an over-long stretch of one. */
  predicate Segment(limit: nat, seg: string) {
    if NEWLINE in seg then FirstNewline(seg) == |seg| - 1 else |seg| >= limit
  }

  function Each(prefix: string, segs: seq<string>): string {
    if segs == [] then "" else Each(prefix, segs[..|segs| - 1]) + (prefix + segs[|segs| - 1])
  }

  /** What came out is every segment behind one prefix; what went in is the segments and the
      partial line still buffered. */
  ghost predicate Balanced(prefix: string, limit: nat, b: Fed, segs: seq<string>) {
    && b.w.out == Each(prefix, segs) && b.input == Concat(segs) + b.w.buf
    && (forall seg | seg in segs :: Segment(limit, seg))
    && NEWLINE !in b.w.buf
  }

  lemma OneMore(prefix: string, segs: seq<string>, seg: string)
    ensures Each(prefix, segs + [seg]) == Each(prefix, segs) + (prefix + seg)
    ensures Concat(segs + [seg]) == Concat(segs) + seg
  {
    assert (segs + [seg])[..|segs|] == segs;
  }

  /** The complete lines of `s` are segments behind their prefixes; its tail is left. */
  lemma {:induction false} LinesAreSegments(prefix: string, limit: nat, segs: seq<string>, s: string)
    returns (more: seq<string>)
    requires forall seg | seg in segs :: Segment(limit, seg)
    ensures Each(prefix, more) == Each(prefix, segs) + Prefixed(prefix, s)
    ensures Concat(more) + Tail(s) == Concat(segs) + s
    ensures forall seg | seg in more :: Segment(limit, seg)
    decreases |s|
  {
    hide FirstNewline, Prefixed, Tail, Each, Concat;
    PrefixedUnfolds(prefix, s);
    var n := FirstNewline(s);
    if n < 0 {
      NoNewlineTail(s);
      more := segs;
      assert Each(prefix, segs) + "" == Each(prefix, segs);
    } else {
      var line, rest := s[..n + 1], s[n + 1..];
      TailOfRest(s, n);
      LineIsSegment(limit, s);
      OneMore(prefix, segs, line);
      more := LinesAreSegments(prefix, limit, segs + [line], rest);
      ConcatAssociates(Each(prefix, segs), prefix + line, Prefixed(prefix, rest));
      ConcatAssociates(Concat(segs), line, rest);
      assert s == line + rest;
    }
  }

  lemma LineIsSegment(limit: nat, s: string)
    requires FirstNewline(s) >= 0
    ensures Segment(limit, s[..FirstNewline(s) + 1])
  {
    hide FirstNewline;
    var n := FirstNewline(s);
    var a := s[..n];
    FirstNewlineIs(a, "");
    assert s[..n + 1] == a + [NEWLINE] + "";
    assert s[..n + 1][n] == NEWLINE;
  }

  lemma StepStaysBalanced(prefix: string, limit: nat, b: Fed, segs: seq<string>, op: Op, after: Fed)
    returns (more: seq<string>)
    requires Balanced(prefix, limit, b, segs)
    requires after.w == PrefixStep(prefix, limit, b.w, op)
    requires after.input == match op
             case Write(p) => b.input + p
             case Flush => b.input + if b.w.buf == "" then "" else [NEWLINE]
    ensures Balanced(prefix, limit, after, more)
  {
    hide FirstNewline, Prefixed, Tail, Each, Concat;
    match op
    case Write(p) =>
      var s := b.w.buf + p;
      ConcatAssociates(Concat(segs), b.w.buf, p);
      if NEWLINE in p {
        more := LinesAreSegments(prefix, limit, segs, s);
        TailOfAppended(b.w.buf, p);
      } else if |s| >= limit {
        OneMore(prefix, segs, s);
        more := segs + [s];
        assert Concat(segs) + s + "" == Concat(segs) + s;
      } else {
        more := segs;
      }
    case Flush =>
      if b.w.buf == "" {
        more := segs;
        assert b.input + "" == b.input;
      } else {
        var line := b.w.buf + [NEWLINE];
        FirstNewlineIs(b.w.buf, "");
        assert b.w.buf + [NEWLINE] + "" == line;
        OneMore(prefix, segs, line);
        more := segs + [line];
        assert Concat(segs) + line + "" == Concat(segs) + b.w.buf + [NEWLINE];
      }
  }

  lemma TailOfAppended(a: string, p: string)
    requires NEWLINE !in a && NEWLINE in p
    ensures Tail(a + p) == Tail(p) && NEWLINE !in Tail(p)
  {
    hide Tail, FirstNewline;
    var n := FirstNewline(p);
    TailOfRest(p, n);
    TailOfRest(a + p, |a| + n);
    assert (a + p)[|a| + n + 1..] == p[n + 1..];
    TailHasNoNewline(p);
  }

  lemma TailHasNoNewline(s: string)
    ensures NEWLINE !in Tail(s)
  {
    var t := Tail(s);
    assert forall k | 0 <= k < |t| :: t[k] == s[LastNewline(s) + 1 + k];
  }

  /**
   * Over any Writes and Flushes, in whatever fragments: the input divides into whole lines,
   * over-long stretches without a newline, and the buffered partial line; and the output is
   * exactly those lines and stretches, in order, each behind one prefix.
   */
  lemma {:induction false} EveryPrefixedRunIsBalanced(prefix: string, limit: nat, ops: seq<Op>)
    ensures exists segs :: Balanced(prefix, limit, FedWith(prefix, limit, ops), segs)
  {
    hide Balanced, PrefixStep;
    if ops == [] {
      NothingIsBalanced(prefix, limit);
    } else {
      var front := ops[..|ops| - 1];
      EveryPrefixedRunIsBalanced(prefix, limit, front);
      var b := FedWith(prefix, limit, front);
      var segs :| Balanced(prefix, limit, b, segs);
      var more := StepStaysBalanced(prefix, limit, b, segs, ops[|ops| - 1], FedWith(prefix, limit, ops));
    }
  }

  lemma NothingIsBalanced(prefix: string, limit: nat)
    ensures Balanced(prefix, limit, FedWith(prefix, limit, []), [])
  {}
}
