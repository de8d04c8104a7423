/** The varnishncsa output chain: raw bytes go through the redactor first and its output
    through the line prefixer. */
module NcsaWriters {
  import opened Basics
  import opened Redaction
  import opened RedactingStream
  import opened RedactingBounds

  const MAX_BUFFERED_LINE := 0x10_0000

  /** Position of the first newline, -1 if there is none. */
  function FirstNewline(s: string): (n: int)
    ensures -1 <= n < |s|
    ensures n >= 0 ==> s[n] == NEWLINE && NEWLINE !in s[..n]
    ensures n == -1 <==> NEWLINE !in s
  {
    if s == "" then -1
    else if s[0] == NEWLINE then 0
    else
      var m := FirstNewline(s[1..]);
      assert s == [s[0]] + s[1..];
      assert m >= 0 ==> s[..m + 1] == [s[0]] + s[1..][..m];
      if m < 0 then -1 else m + 1
  }

  /** Every complete line of `s` with the prefix in front; an unterminated rest is not
      part of the result. */
  function Prefixed(prefix: string, s: string): string
    decreases |s|
  {
    var n := FirstNewline(s);
    if n < 0 then "" else prefix + s[..n + 1] + Prefixed(prefix, s[n + 1..])
  }

  function PrefixStep(prefix: string, limit: nat, w: Stream, op: Op): Stream {
    match op
    case Write(p) =>
      if NEWLINE in p then Stream(Tail(p), w.out + Prefixed(prefix, w.buf + p))
      else if |w.buf + p| >= limit then Stream("", w.out + (prefix + (w.buf + p)))
      else Stream(w.buf + p, w.out)
    case Flush =>
      if w.buf == "" then w else Stream("", w.out + (prefix + (w.buf + [NEWLINE])))
  }

  /** What the whole chain promises: each complete input line, redacted, behind the prefix. */
  function RedactedLines(ts: seq<string>, prefix: string, s: string): string
    requires NonEmptyTargets(ts)
    decreases |s|
  {
    var n := FirstNewline(s);
    if n < 0 then ""
    else prefix + (Redact(ts, s[..n]) + [NEWLINE]) + RedactedLines(ts, prefix, s[n + 1..])
  }

  /** `s` consists of complete lines only. */
  predicate Complete(s: string) {
    s == "" || s[|s| - 1] == NEWLINE
  }

  lemma {:induction false} FirstNewlineIs(a: string, b: string)
    requires NEWLINE !in a
    ensures FirstNewline(a + [NEWLINE] + b) == |a|
    ensures (a + [NEWLINE] + b)[..|a| + 1] == a + [NEWLINE]
    ensures (a + [NEWLINE] + b)[|a| + 1..] == b
  {
    if a != "" {
      FirstNewlineIs(a[1..], b);
      assert (a + [NEWLINE] + b)[1..] == a[1..] + [NEWLINE] + b;
    }
  }

  /** A single line stays a single line when redacted. */
  lemma {:induction false} RedactStaysSingleLine(ts: seq<string>, s: string)
    requires NonEmptyTargets(ts) && SingleLine(s)
    ensures SingleLine(Redact(ts, s))
    decreases |s|
  {
    if s != "" {
      RedactStaysSingleLine(ts, s[Advance(ts, s)..]);
      assert SingleLine(Emitted(ts, s)) by {
        assert s[0] in s;
      }
    }
  }

  lemma SplitFirstLine(s: string) returns (line: string, rest: string)
    requires Complete(s) && s != ""
    ensures s == line + [NEWLINE] + rest && NEWLINE !in line && Complete(rest)
  {
    hide FirstNewline;
    var n := FirstNewline(s);
    assert s[|s| - 1] in s;
    line, rest := s[..n], s[n + 1..];
    if rest != "" { assert rest[|rest| - 1] == s[|s| - 1]; }
  }

  lemma PrefixedCons(prefix: string, line: string, rest: string)
    requires NEWLINE !in line
    ensures Prefixed(prefix, line + [NEWLINE] + rest)
            == prefix + (line + [NEWLINE]) + Prefixed(prefix, rest)
  {
    FirstNewlineIs(line, rest);
  }

  lemma RedactedLinesCons(ts: seq<string>, prefix: string, line: string, rest: string)
    requires NonEmptyTargets(ts) && NEWLINE !in line
    ensures RedactedLines(ts, prefix, line + [NEWLINE] + rest)
            == prefix + (Redact(ts, line) + [NEWLINE]) + RedactedLines(ts, prefix, rest)
  {
    hide Redact, FirstNewline;
    var s := line + [NEWLINE] + rest;
    FirstNewlineIs(line, rest);
    assert s[..|line|] == line;
  }

  /** Prefixing the redaction of complete lines is redacting and prefixing line by line. */
  lemma {:induction false} PrefixedRedaction(ts: seq<string>, prefix: string, s: string)
    requires NonEmptyTargets(ts) && SingleLineTargets(ts) && Complete(s)
    ensures Prefixed(prefix, Redact(ts, s)) == RedactedLines(ts, prefix, s)
    decreases |s|
  {
    if s != "" {
      hide NonEmptyTargets, Redact, Prefixed, RedactedLines, Complete;
      var line, rest := SplitFirstLine(s);
      ConcatAssociates(line, [NEWLINE], rest);
      RedactLine(ts, line, rest);
      RedactStaysSingleLine(ts, line);
      ConcatAssociates(Redact(ts, line), [NEWLINE], Redact(ts, rest));
      PrefixedRedaction(ts, prefix, rest);
      PrefixedCons(prefix, Redact(ts, line), Redact(ts, rest));
      RedactedLinesCons(ts, prefix, line, rest);
    }
  }

  lemma {:induction false} RedactedLinesAppend(ts: seq<string>, prefix: string, a: string, b: string)
    requires NonEmptyTargets(ts) && Complete(a)
    ensures RedactedLines(ts, prefix, a + b)
            == RedactedLines(ts, prefix, a) + RedactedLines(ts, prefix, b)
    decreases |a|
  {
    if a == "" {
      assert a + b == b;
    } else {
      hide *;
      var line, rest := SplitFirstLine(a);
      ConcatAssociates(line + [NEWLINE], rest, b);
      RedactedLinesAppend(ts, prefix, rest, b);
      RedactedLinesCons(ts, prefix, line, rest);
      RedactedLinesCons(ts, prefix, line, rest + b);
      ConcatAssociates(prefix + (Redact(ts, line) + [NEWLINE]),
                       RedactedLines(ts, prefix, rest), RedactedLines(ts, prefix, b));
    }
  }

  /** The prefixer's state after the redactor was fed `ps`: each Write call the redactor
      makes hands over the text it newly forwarded. */
  ghost function ChainOf(ts: seq<string>, prefix: string, limit: nat, ps: seq<string>): Stream
    requires NonEmptyTargets(ts)
  {
    if ps == [] then START.w else
      var n := |ps| - 1;
      Relay(prefix, RunOf(ts, limit, Chunks(ps[..n])).w, RunOf(ts, limit, Chunks(ps)).w,
            ChainOf(ts, prefix, limit, ps[..n]))
  }

  function Relay(prefix: string, before: Stream, after: Stream, pre: Stream): Stream {
    if |after.out| <= |before.out| then pre
    else PrefixStep(prefix, MAX_BUFFERED_LINE, pre, Write(after.out[|before.out|..]))
  }

  /** Flushes the redactor, then the prefixer. */
  ghost function FlushChain(ts: seq<string>, prefix: string, limit: nat, w: Stream, pre: Stream): Stream
    requires NonEmptyTargets(ts)
  {
    PrefixStep(prefix, MAX_BUFFERED_LINE, Relay(prefix, w, Step(ts, limit, w, Flush), pre), Flush)
  }

  /** Complete lines handed over in one call come out redacted, prefixed and unbuffered. */
  lemma RelayLines(ts: seq<string>, prefix: string, before: Stream, after: Stream, pre: Stream, x: string)
    requires NonEmptyTargets(ts) && SingleLineTargets(ts) && Complete(x) && pre.buf == ""
    requires after.out == before.out + Redact(ts, x)
    ensures Relay(prefix, before, after, pre)
            == Stream("", pre.out + RedactedLines(ts, prefix, x))
  {
    hide FirstNewline, Redact, RedactedLines, Prefixed, Tail;
    assert after.out[|before.out|..] == Redact(ts, x);
    if x == "" {
      RedactNothing(ts);
      RedactedLinesUnfold(ts, prefix, "");
      assert pre.out + "" == pre.out;
    } else {
      RedactComplete(ts, x);
      var r := Redact(ts, x);
      assert pre.buf + r == r;
      PrefixedRedaction(ts, prefix, x);
    }
  }

  lemma RedactedLinesUnfold(ts: seq<string>, prefix: string, s: string)
    requires NonEmptyTargets(ts)
    ensures NEWLINE !in s ==> RedactedLines(ts, prefix, s) == ""
  {}

  lemma RedactComplete(ts: seq<string>, x: string)
    requires NonEmptyTargets(ts) && SingleLineTargets(ts) && Complete(x) && x != ""
    ensures var r := Redact(ts, x); r != "" && NEWLINE in r && Tail(r) == ""
  {
    hide Redact;
    var y := x[..|x| - 1];
    assert x == y + ([NEWLINE] + "");
    RedactLine(ts, y, "");
    RedactNothing(ts);
    assert Redact(ts, x) == Redact(ts, y) + [NEWLINE];
    TailSnoc(Redact(ts, y), NEWLINE);
  }

  lemma {:induction false} ChainForwardsLines(ts: seq<string>, prefix: string, limit: nat, ps: seq<string>)
    requires NonEmptyTargets(ts) && SingleLineTargets(ts) && ShortLines(limit, ps)
    ensures var r := RunOf(ts, limit, Chunks(ps));
            Complete(r.kept)
            && ChainOf(ts, prefix, limit, ps) == Stream("", RedactedLines(ts, prefix, r.kept))
  {
    hide RunStep, Redact, Tail, Complete, Accounted;
    if ps == [] {
      RedactedLinesUnfold(ts, prefix, "");
      assert Complete("") by { EmptyIsComplete(); }
    } else {
      hide RedactedLines, FirstNewline, LastNewline, Relay;
      var n := |ps| - 1;
      forall k | 0 <= k <= n ensures |Tail(Concat(ps[..n][..k]))| < limit {
        assert ps[..n][..k] == ps[..k];
      }
      ChainForwardsLines(ts, prefix, limit, ps[..n]);
      assert Chunks(ps)[..n] == Chunks(ps[..n]);
      assert ps[..|ps|] == ps;
      var r, after := RunOf(ts, limit, Chunks(ps[..n])), RunOf(ts, limit, Chunks(ps));
      ShortLinesNeverCut(ts, limit, ps[..n]);
      ChunksFeedConcat(ts, limit, ps[..n]);
      ShortLineStep(ts, limit, r, ps[n]);
      var x := LinesAreComplete(r.w.buf + ps[n], r.kept);
      ChainStepOutput(ts, limit, ps, x);
      RelayLines(ts, prefix, r.w, after.w, ChainOf(ts, prefix, limit, ps[..n]), x);
      RedactedLinesAppend(ts, prefix, r.kept, x);
      assert "" + RedactedLines(ts, prefix, r.kept) == RedactedLines(ts, prefix, r.kept);
    }
  }

  lemma EmptyIsComplete()
    ensures Complete("")
  {}

  lemma LinesAreComplete(s: string, kept: string) returns (x: string)
    requires Complete(kept)
    ensures x == s[..LastNewline(s) + 1] && Complete(x) && Complete(kept + x)
  {
    x := s[..LastNewline(s) + 1];
    assert x == "" ==> kept + x == kept;
  }

  /** Under short lines the redactor's output grows by the redaction of complete lines. */
  lemma ChainStepOutput(ts: seq<string>, limit: nat, ps: seq<string>, x: string)
    requires NonEmptyTargets(ts) && SingleLineTargets(ts) && ps != [] && ShortLines(limit, ps)
    requires ShortLines(limit, ps[..|ps| - 1])
    requires RunOf(ts, limit, Chunks(ps)).kept == RunOf(ts, limit, Chunks(ps[..|ps| - 1])).kept + x
    ensures RunOf(ts, limit, Chunks(ps)).w.out
            == RunOf(ts, limit, Chunks(ps[..|ps| - 1])).w.out + Redact(ts, x)
  {
    hide RunOf, Redact, Tail;
    var qs := ps[..|ps| - 1];
    var r, after := RunOf(ts, limit, Chunks(qs)), RunOf(ts, limit, Chunks(ps));
    ShortLinesNeverCut(ts, limit, qs);
    ShortLinesNeverCut(ts, limit, ps);
    EveryRunIsAccounted(ts, limit, Chunks(qs));
    EveryRunIsAccounted(ts, limit, Chunks(ps));
    ChunksFeedConcat(ts, limit, qs);
    ChunksFeedConcat(ts, limit, ps);
    assert Concat(qs) == "" + r.kept + r.w.buf && Concat(ps) == "" + after.kept + after.w.buf;
    assert "" + r.kept == r.kept && "" + after.kept == after.kept;
    assert Concat(ps) == Concat(qs) + ps[|ps| - 1];
    assert r.kept + r.w.buf + ps[|ps| - 1] == r.kept + x + after.w.buf;
    SettledExtends(ts, r.kept + r.w.buf, ps[|ps| - 1], |r.kept|);
    ConcatAssociates(r.kept, x, after.w.buf);
    RedactAppends(ts, "", r.kept, x, after.w.buf);
    assert "" + Redact(ts, r.kept) == Redact(ts, r.kept);
    assert "" + Redact(ts, r.kept + x) == Redact(ts, r.kept + x);
  }

  /** The composition of the two writers: for every chunking of a stream of short lines,
      after flushing the redactor and then the prefixer, the sink has received each input
      line redacted on its own behind one prefix, an unterminated last line included. */
  lemma ChainIsLineByLine(ts: seq<string>, prefix: string, limit: nat, ps: seq<string>)
    requires NonEmptyTargets(ts) && SingleLineTargets(ts) && ShortLines(limit, ps)
    ensures var w := RunOf(ts, limit, Chunks(ps)).w;
            FlushChain(ts, prefix, limit, w, ChainOf(ts, prefix, limit, ps))
            == Stream("", RedactedLines(ts, prefix,
                 Concat(ps) + if Tail(Concat(ps)) == "" then "" else [NEWLINE]))
  {
    hide Redact, RedactedLines, RunOf, FirstNewline, Tail, LastNewline, ChainOf, Prefixed;
    var r, pre := RunOf(ts, limit, Chunks(ps)), ChainOf(ts, prefix, limit, ps);
    ChainForwardsLines(ts, prefix, limit, ps);
    ShortLinesNeverCut(ts, limit, ps);
    EveryRunIsAccounted(ts, limit, Chunks(ps));
    ChunksFeedConcat(ts, limit, ps);
    assert Concat(ps) == r.kept + r.w.buf;
    if r.w.buf == "" {
      assert Concat(ps) + "" == r.kept;
    } else {
      var line := r.w.buf + [NEWLINE];
      FlushRelays(ts, prefix, limit, r.w, pre);
      RedactedLinesAppend(ts, prefix, r.kept, line);
      assert Concat(ps) + [NEWLINE] == r.kept + line;
    }
  }

  lemma FlushRelays(ts: seq<string>, prefix: string, limit: nat, w: Stream, pre: Stream)
    requires NonEmptyTargets(ts) && SingleLineTargets(ts) && w.buf != "" && pre.buf == ""
    ensures FlushChain(ts, prefix, limit, w, pre)
            == Stream("", pre.out + RedactedLines(ts, prefix, w.buf + [NEWLINE]))
  {
    hide Redact, RedactedLines, Relay;
    var line := w.buf + [NEWLINE];
    assert line[..|line|] == line;
    RelayLines(ts, prefix, w, Step(ts, limit, w, Flush), pre, line);
  }

  // ---------------------------------------------------------------------------
  // The prefixer as the program runs it
  // ---------------------------------------------------------------------------

  lemma PrefixedSplits(prefix: string, a: string, b: string)
    requires NEWLINE !in a && NEWLINE in b
    ensures var n := FirstNewline(b);
            Prefixed(prefix, a + b) == prefix + (a + b[..n + 1]) + Prefixed(prefix, b[n + 1..])
  {
    hide FirstNewline, Prefixed;
    var n := FirstNewline(b);
    assert a + b == (a + b[..n]) + [NEWLINE] + b[n + 1..];
    PrefixedCons(prefix, a + b[..n], b[n + 1..]);
    assert a + b[..n] + [NEWLINE] == a + b[..n + 1];
  }

  class PrefixWriter {
    const prefix: string
    var buf: string
    var out: string

    ghost function State(): Stream
      reads this
    {
      Stream(buf, out)
    }

    constructor (prefix: string)
      ensures this.prefix == prefix && State() == START.w
    {
      this.prefix := prefix;
      buf, out := "", "";
    }

    method FlushOverlongLine()
      modifies this
      ensures State() == Stream("", old(out) + (prefix + old(buf)))
    {
      var scratch := prefix + buf;
      out := out + scratch;
      buf := "";
    }

    /** Prepends the prefix to every complete line and buffers the rest. */
    method Write(p: string)
      requires NEWLINE !in buf
      modifies this
      ensures State() == PrefixStep(prefix, MAX_BUFFERED_LINE, old(State()), RedactingStream.Write(p))
      ensures NEWLINE !in buf
    {
      hide FirstNewline, Prefixed, Tail;
      var nl := FirstNewline(p);
      if nl < 0 {
        buf := buf + p;
        if |buf| >= MAX_BUFFERED_LINE {
          FlushOverlongLine();
        }
        return;
      }
      PrefixedSplits(prefix, buf, p);
      PrefixedUnfolds(prefix, "");
      if buf == "" && nl == |p| - 1 {
        OneLine(prefix, p);
        out := out + (prefix + p);
        assert old(buf) + p == "" + p;
        return;
      }
      var scratch := prefix + (buf + p[..nl + 1]);
      buf := "";
      var rest := p[nl + 1..];
      ghost var total := Prefixed(prefix, old(buf) + p);
      TailOfRest(p, nl);
      while rest != ""
        invariant total == scratch + Prefixed(prefix, rest)
        invariant Tail(p) == buf + Tail(rest) && (buf == "" || rest == "")
        invariant NEWLINE !in buf && out == old(out)
        decreases |rest|
      {
        PrefixedUnfolds(prefix, rest);
        nl := FirstNewline(rest);
        if nl < 0 {
          NoNewlineTail(rest);
          buf := buf + rest;
          rest := "";
          PrefixedUnfolds(prefix, rest);
          TailOfNothing();
          break;
        }
        TailOfRest(rest, nl);
        ConcatAssociates(scratch, prefix + rest[..nl + 1], Prefixed(prefix, rest[nl + 1..]));
        scratch := scratch + (prefix + rest[..nl + 1]);
        rest := rest[nl + 1..];
      }
      TailOfNothing();
      assert scratch == total && buf == Tail(p);
      out := out + scratch;
    }

    /** Emits a partial last line, prefixed and newline-terminated. */
    method Flush()
      modifies this
      ensures State() == PrefixStep(prefix, MAX_BUFFERED_LINE, old(State()), RedactingStream.Flush)
    {
      if buf == "" {
        return;
      }
      buf := buf + [NEWLINE];
      FlushOverlongLine();
    }
  }

  lemma OneLine(prefix: string, p: string)
    requires FirstNewline(p) == |p| - 1 >= 0
    ensures Prefixed(prefix, "" + p) == prefix + p && Tail(p) == ""
  {
    hide FirstNewline, LastNewline;
    assert "" + p == p && p[..|p|] == p && p[|p|..] == "";
    assert Prefixed(prefix, "") == "" by { PrefixedUnfolds(prefix, ""); }
  }

  lemma PrefixedUnfolds(prefix: string, s: string)
    ensures var n := FirstNewline(s);
            Prefixed(prefix, s) == if n < 0 then "" else prefix + s[..n + 1] + Prefixed(prefix, s[n + 1..])
  {}

  lemma NoNewlineTail(s: string)
    requires NEWLINE !in s
    ensures Tail(s) == s
  {
    assert LastNewline(s) == -1;
  }

  lemma TailOfRest(s: string, n: nat)
    requires n < |s| && s[n] == NEWLINE
    ensures Tail(s) == Tail(s[n + 1..])
  {
    assert s == s[..n + 1] + s[n + 1..];
    TailAfterAppend(s[..n + 1], s[n + 1..]);
    assert Tail(s[..n + 1]) == "";
    assert "" + s[n + 1..] == s[n + 1..];
  }
}
