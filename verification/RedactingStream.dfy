/** The streaming redactor as a state machine over arbitrary chunks, and what holds of
    every run of it. `limit` is the partial-line bound (1 MiB in the program). */
module RedactingStream {
  import opened Basics
  import opened Redaction

  /** `buf` is the partial line not yet forwarded; `out` is everything forwarded. */
  datatype Stream = Stream(buf: string, out: string)

  datatype Op = Write(p: string) | Flush

  /** Position of the last newline, -1 if there is none. */
  function LastNewline(s: string): (n: int)
    ensures -1 <= n < |s|
    ensures n >= 0 ==> s[n] == NEWLINE
    ensures forall k | n < k < |s| :: s[k] != NEWLINE
  {
    if s == "" then -1
    else if s[|s| - 1] == NEWLINE then |s| - 1
    else LastNewline(s[..|s| - 1])
  }

  /** The bytes after the last newline. */
  function Tail(s: string): string {
    s[LastNewline(s) + 1..]
  }

  /** Emits the head of the buffer up to `n`, redacted. */
  function Emit(ts: seq<string>, w: Stream, n: nat): Stream
    requires NonEmptyTargets(ts) && n <= |w.buf|
  {
    Stream(w.buf[n..], w.out + Redact(ts, w.buf[..n]))
  }

  function RawCut(ts: seq<string>, buf: string): (c: nat)
    ensures c <= |buf|
  {
    |buf| - Hold(ts, buf)
  }

  ghost function SafeCut(ts: seq<string>, buf: string): (c: nat)
    ensures c <= RawCut(ts, buf)
  {
    GreatestSafe(ts, buf, RawCut(ts, buf))
  }

  /** The head cannot be cut anywhere: it is replaced by one placeholder. */
  ghost predicate Collapses(ts: seq<string>, buf: string) {
    SafeCut(ts, buf) == 0 < RawCut(ts, buf)
  }

  ghost function Overflow(ts: seq<string>, limit: nat, w: Stream): Stream
    requires NonEmptyTargets(ts)
  {
    if |w.buf| < limit then w
    else if SafeCut(ts, w.buf) > 0 then Emit(ts, w, SafeCut(ts, w.buf))
    else if RawCut(ts, w.buf) > 0 then
      Stream(w.buf[RawCut(ts, w.buf)..], w.out + PLACEHOLDER)
    else w
  }

  /** The stream after appending `p` and forwarding every complete line. */
  function AfterLines(ts: seq<string>, w: Stream, p: string): Stream
    requires NonEmptyTargets(ts)
  {
    var w := Stream(w.buf + p, w.out);
    Emit(ts, w, LastNewline(w.buf) + 1)
  }

  ghost function Step(ts: seq<string>, limit: nat, w: Stream, op: Op): Stream
    requires NonEmptyTargets(ts)
  {
    match op
    case Write(p) => Overflow(ts, limit, AfterLines(ts, w, p))
    case Flush =>
      if w.buf == "" then w else Emit(ts, Stream(w.buf + [NEWLINE], w.out), |w.buf| + 1)
  }

  // ---------------------------------------------------------------------------
  // The ledger of a run: which input bytes went where
  // ---------------------------------------------------------------------------

  /** A stretch of input redacted as usual, then a stretch collapsed to a placeholder. */
  datatype Collapse = Collapse(kept: string, dropped: string)

  /** `fed` is the logical input: every chunk, plus the newline each effective Flush
      adds. `past` lists the collapses so far, `kept` what was redacted since. */
  datatype Run = Run(w: Stream, fed: string, past: seq<Collapse>, kept: string)

  const START := Run(Stream("", ""), "", [], "")

  function InputOf(past: seq<Collapse>): string {
    if past == [] then "" else
      InputOf(past[..|past| - 1]) + past[|past| - 1].kept + past[|past| - 1].dropped
  }

  function OutputOf(ts: seq<string>, past: seq<Collapse>): string
    requires NonEmptyTargets(ts)
  {
    if past == [] then "" else
      OutputOf(ts, past[..|past| - 1]) + Redact(ts, past[|past| - 1].kept) + PLACEHOLDER
  }

  function LedgerAppend(r: Run, p: string): Run {
    Run(Stream(r.w.buf + p, r.w.out), r.fed + p, r.past, r.kept)
  }

  function LedgerEmit(ts: seq<string>, r: Run, n: nat): Run
    requires NonEmptyTargets(ts) && n <= |r.w.buf|
  {
    Run(Emit(ts, r.w, n), r.fed, r.past, r.kept + r.w.buf[..n])
  }

  function LedgerCollapse(r: Run, n: nat): Run
    requires n <= |r.w.buf|
  {
    Run(Stream(r.w.buf[n..], r.w.out + PLACEHOLDER), r.fed,
        r.past + [Collapse(r.kept, r.w.buf[..n])], "")
  }

  ghost function LedgerOverflow(ts: seq<string>, limit: nat, r: Run): Run
    requires NonEmptyTargets(ts)
  {
    if |r.w.buf| < limit then r
    else if SafeCut(ts, r.w.buf) > 0 then LedgerEmit(ts, r, SafeCut(ts, r.w.buf))
    else if RawCut(ts, r.w.buf) > 0 then LedgerCollapse(r, RawCut(ts, r.w.buf))
    else r
  }

  function LedgerLines(ts: seq<string>, r: Run, p: string): Run
    requires NonEmptyTargets(ts)
  {
    LedgerEmit(ts, LedgerAppend(r, p), LastNewline(r.w.buf + p) + 1)
  }

  ghost function RunStep(ts: seq<string>, limit: nat, r: Run, op: Op): Run
    requires NonEmptyTargets(ts)
  {
    match op
    case Write(p) => LedgerOverflow(ts, limit, LedgerLines(ts, r, p))
    case Flush =>
      if r.w.buf == "" then r
      else LedgerEmit(ts, LedgerAppend(r, [NEWLINE]), |r.w.buf| + 1)
  }

  ghost function RunOf(ts: seq<string>, limit: nat, ops: seq<Op>): Run
    requires NonEmptyTargets(ts)
  {
    if ops == [] then START
    else RunStep(ts, limit, RunOf(ts, limit, ops[..|ops| - 1]), ops[|ops| - 1])
  }

  lemma LinesFollow(ts: seq<string>, r: Run, p: string)
    requires NonEmptyTargets(ts)
    ensures LedgerLines(ts, r, p).w == AfterLines(ts, r.w, p)
    ensures LedgerLines(ts, r, p).fed == r.fed + p
  {}

  lemma OverflowFollows(ts: seq<string>, limit: nat, r: Run)
    requires NonEmptyTargets(ts)
    ensures LedgerOverflow(ts, limit, r).w == Overflow(ts, limit, r.w)
    ensures LedgerOverflow(ts, limit, r).fed == r.fed
  {}

  /** The ledger records exactly the state machine's own steps. */
  lemma RunFollowsSteps(ts: seq<string>, limit: nat, r: Run, op: Op)
    requires NonEmptyTargets(ts)
    ensures RunStep(ts, limit, r, op).w == Step(ts, limit, r.w, op)
    ensures op.Write? ==> RunStep(ts, limit, r, op).fed == r.fed + op.p
  {
    if op.Write? {
      LinesFollow(ts, r, op.p);
      OverflowFollows(ts, limit, LedgerLines(ts, r, op.p));
    }
  }

  /** Every byte of the collapsed stretches lies inside a target occurrence of `fed`. */
  ghost predicate DroppedAreSecret(ts: seq<string>, fed: string, past: seq<Collapse>) {
    past != [] ==>
      var n := |past| - 1;
      var at := |InputOf(past[..n])| + |past[n].kept|;
      && DroppedAreSecret(ts, fed, past[..n])
      && past[n].dropped != ""
      && forall j | at <= j < at + |past[n].dropped| :: Secret(ts, fed, j)
  }

  /** What every reachable run satisfies. */
  ghost predicate Accounted(ts: seq<string>, r: Run)
    requires NonEmptyTargets(ts)
  {
    && r.fed == InputOf(r.past) + r.kept + r.w.buf
    && r.w.out == OutputOf(ts, r.past) + Redact(ts, r.kept)
    && Settled(ts, r.kept + r.w.buf, |r.kept|)
    && DroppedAreSecret(ts, r.fed, r.past)
  }

  // ---------------------------------------------------------------------------
  // Each part of a step keeps the ledger balanced
  // ---------------------------------------------------------------------------

  lemma {:induction false} DroppedStaySecret(ts: seq<string>, fed: string, f: string, past: seq<Collapse>)
    requires DroppedAreSecret(ts, fed, past) && |InputOf(past)| <= |fed|
    ensures DroppedAreSecret(ts, fed + f, past)
  {
    if past != [] {
      var n := |past| - 1;
      DroppedStaySecret(ts, fed, f, past[..n]);
      var at := |InputOf(past[..n])| + |past[n].kept|;
      forall j | at <= j < at + |past[n].dropped| ensures Secret(ts, fed + f, j) {
        SecretExtends(ts, "", fed, f, j);
        assert "" + fed + f == fed + f;
      }
    }
  }

  /** Redacting one settled stretch after another equals redacting them together. */
  lemma RedactAppends(ts: seq<string>, out: string, kept: string, x: string, rest: string)
    requires NonEmptyTargets(ts) && Settled(ts, kept + (x + rest), |kept|)
    ensures out + Redact(ts, kept) + Redact(ts, x) == out + Redact(ts, kept + x)
  {
    SettledIsSafe(ts, kept + (x + rest), |kept|);
    ConcatAssociates(kept, x, rest);
    SafeInPrefix(ts, kept + x, rest, |kept|);
    RedactDistributes(ts, kept, x);
    ConcatAssociates(out, Redact(ts, kept), Redact(ts, x));
  }

  lemma AppendKeepsLedger(ts: seq<string>, r: Run, p: string)
    requires NonEmptyTargets(ts) && Accounted(ts, r)
    ensures Accounted(ts, LedgerAppend(r, p))
  {
    SettledExtends(ts, r.kept + r.w.buf, p, |r.kept|);
    ConcatAssociates(r.kept, r.w.buf, p);
    ConcatAssociates(InputOf(r.past) + r.kept, r.w.buf, p);
    DroppedStaySecret(ts, r.fed, p, r.past);
  }

  lemma EmitKeepsLedger(ts: seq<string>, r: Run, n: nat)
    requires NonEmptyTargets(ts) && Accounted(ts, r) && n <= |r.w.buf|
    requires Settled(ts, r.w.buf, n)
    ensures Accounted(ts, LedgerEmit(ts, r, n))
  {
    var x, rest := r.w.buf[..n], r.w.buf[n..];
    assert r.w.buf == x + rest;
    RedactAppends(ts, OutputOf(ts, r.past), r.kept, x, rest);
    ConcatAssociates(r.kept, x, rest);
    ConcatAssociates(InputOf(r.past), r.kept, x);
    ConcatAssociates(InputOf(r.past) + r.kept, x, rest);
    var s := r.kept + r.w.buf;
    assert s[|r.kept|..] == r.w.buf;
    SettledDeeper(ts, s, |r.kept|, |r.kept| + n);
  }

  lemma CollapseKeepsLedger(ts: seq<string>, r: Run)
    requires NonEmptyTargets(ts) && Accounted(ts, r) && Collapses(ts, r.w.buf)
    ensures Accounted(ts, LedgerCollapse(r, RawCut(ts, r.w.buf)))
  {
    var n := RawCut(ts, r.w.buf);
    var x, rest := r.w.buf[..n], r.w.buf[n..];
    assert r.w.buf == x + rest;
    var past := r.past + [Collapse(r.kept, x)];
    assert past[..|r.past|] == r.past;
    ConcatAssociates(InputOf(r.past) + r.kept, x, rest);
    var before := InputOf(r.past) + r.kept;
    forall j | |before| <= j < |before| + n ensures Secret(ts, r.fed, j) {
      LoweredPastSecretsOnly(ts, r.w.buf, n, j - |before|);
      SecretExtends(ts, before, r.w.buf, "", j - |before|);
      assert before + r.w.buf + "" == r.fed;
    }
  }

  lemma StartIsSettled(ts: seq<string>, s: string)
    ensures Settled(ts, s, 0)
  {}

  lemma LinesKeepLedger(ts: seq<string>, r: Run, p: string)
    requires NonEmptyTargets(ts) && SingleLineTargets(ts) && Accounted(ts, r)
    ensures Accounted(ts, LedgerLines(ts, r, p))
  {
    hide Accounted, Settled, LedgerEmit, SingleLineTargets;
    var a := LedgerAppend(r, p);
    AppendKeepsLedger(ts, r, p);
    var n := LastNewline(a.w.buf) + 1;
    if n > 0 {
      SettledAfterNewline(ts, a.w.buf, n);
    } else {
      StartIsSettled(ts, a.w.buf);
    }
    EmitKeepsLedger(ts, a, n);
  }

  lemma FlushKeepsLedger(ts: seq<string>, r: Run)
    requires NonEmptyTargets(ts) && SingleLineTargets(ts) && Accounted(ts, r)
    ensures Accounted(ts, LedgerEmit(ts, LedgerAppend(r, [NEWLINE]), |r.w.buf| + 1))
  {
    hide Accounted, Settled, LedgerEmit, SingleLineTargets;
    var a := LedgerAppend(r, [NEWLINE]);
    AppendKeepsLedger(ts, r, [NEWLINE]);
    assert a.w.buf[|r.w.buf|] == NEWLINE;
    SettledAfterNewline(ts, a.w.buf, |r.w.buf| + 1);
    EmitKeepsLedger(ts, a, |r.w.buf| + 1);
  }

  lemma OverflowKeepsLedger(ts: seq<string>, limit: nat, r: Run)
    requires NonEmptyTargets(ts) && Accounted(ts, r)
    ensures Accounted(ts, LedgerOverflow(ts, limit, r))
  {
    hide Accounted, Settled, LedgerEmit, LedgerCollapse, Safe, GreatestSafe, Hold;
    if |r.w.buf| >= limit {
      if Collapses(ts, r.w.buf) {
        CollapseKeepsLedger(ts, r);
      } else if SafeCut(ts, r.w.buf) > 0 {
        GreatestSafeIsGreatest(ts, r.w.buf, RawCut(ts, r.w.buf));
        SafeBelowHoldIsSettled(ts, r.w.buf, SafeCut(ts, r.w.buf));
        EmitKeepsLedger(ts, r, SafeCut(ts, r.w.buf));
      }
    }
  }

  /** Every step of every run keeps the ledger balanced. */
  lemma StepKeepsLedger(ts: seq<string>, limit: nat, r: Run, op: Op)
    requires NonEmptyTargets(ts) && SingleLineTargets(ts) && Accounted(ts, r)
    ensures Accounted(ts, RunStep(ts, limit, r, op))
  {
    hide Accounted, LedgerEmit, LedgerOverflow, LedgerLines, LedgerAppend, SingleLineTargets;
    match op
    case Write(p) =>
      LinesKeepLedger(ts, r, p);
      OverflowKeepsLedger(ts, limit, LedgerLines(ts, r, p));
    case Flush =>
      FlushKeepsLedger(ts, r);
  }

  lemma {:induction false} EveryRunIsAccounted(ts: seq<string>, limit: nat, ops: seq<Op>)
    requires NonEmptyTargets(ts) && SingleLineTargets(ts)
    ensures Accounted(ts, RunOf(ts, limit, ops))
  {
    if ops != [] {
      EveryRunIsAccounted(ts, limit, ops[..|ops| - 1]);
      StepKeepsLedger(ts, limit, RunOf(ts, limit, ops[..|ops| - 1]), ops[|ops| - 1]);
    }
  }

  // ---------------------------------------------------------------------------
  // Streaming refines whole-string redaction
  // ---------------------------------------------------------------------------

  function Chunks(ps: seq<string>): seq<Op> {
    seq(|ps|, i requires 0 <= i < |ps| => Write(ps[i]))
  }

  function Concat(ps: seq<string>): string {
    if ps == [] then "" else Concat(ps[..|ps| - 1]) + ps[|ps| - 1]
  }

  /** The logical input of a run is the concatenation of its chunks. */
  lemma {:induction false} ChunksFeedConcat(ts: seq<string>, limit: nat, ps: seq<string>)
    requires NonEmptyTargets(ts)
    ensures RunOf(ts, limit, Chunks(ps)).fed == Concat(ps)
  {
    hide RunStep;
    if ps != [] {
      var n := |ps| - 1;
      ChunksFeedConcat(ts, limit, ps[..n]);
      assert Chunks(ps)[..n] == Chunks(ps[..n]);
      RunFollowsSteps(ts, limit, RunOf(ts, limit, Chunks(ps[..n])), Write(ps[n]));
    }
  }

  /** A newline is never part of a match: it ends the line it terminates, unchanged. */
  lemma RedactLine(ts: seq<string>, s: string, rest: string)
    requires NonEmptyTargets(ts) && SingleLineTargets(ts)
    ensures Redact(ts, s + ([NEWLINE] + rest)) == Redact(ts, s) + ([NEWLINE] + Redact(ts, rest))
  {
    var t := [NEWLINE] + rest;
    forall v, i | Straddles(s + t, v, i, |s|) ensures !SingleLine(v) {
      assert v[|s| - i] == (s + t)[|s|];
    }
    RedactDistributes(ts, s, t);
    MatchIsTarget(ts, t);
    forall v | v != "" && v <= t ensures !SingleLine(v) {
      assert v[0] == NEWLINE;
    }
    assert forall v | v in ts :: v != "";
    assert MatchLength(ts, t) == 0;
    assert t[1..] == rest;
  }

  lemma FlushEmitsLine(ts: seq<string>, limit: nat, w: Stream)
    requires NonEmptyTargets(ts) && SingleLineTargets(ts) && w.buf != ""
    ensures Step(ts, limit, w, Flush) == Stream("", w.out + (Redact(ts, w.buf) + [NEWLINE]))
  {
    hide Redact, SingleLineTargets;
    var line := w.buf + [NEWLINE];
    assert line[..|line|] == line && line[|line|..] == "";
    assert [NEWLINE] + "" == [NEWLINE];
    RedactLine(ts, w.buf, "");
    RedactNothing(ts);
    assert [NEWLINE] + Redact(ts, "") == [NEWLINE];
  }

  /** Flushing a run that never collapsed completes the redaction of its input. */
  lemma FlushCompletes(ts: seq<string>, limit: nat, r: Run)
    requires NonEmptyTargets(ts) && SingleLineTargets(ts) && Accounted(ts, r) && r.past == []
    ensures Step(ts, limit, r.w, Flush).out
            == Redact(ts, r.fed) + if r.w.buf == "" then "" else [NEWLINE]
  {
    assert r.fed == r.kept + r.w.buf && r.w.out == Redact(ts, r.kept);
    if r.w.buf == "" {
      assert r.fed == r.kept;
    } else {
      hide Redact;
      SettledIsSafe(ts, r.kept + r.w.buf, |r.kept|);
      RedactDistributes(ts, r.kept, r.w.buf);
      FlushEmitsLine(ts, limit, r.w);
      ConcatAssociates(Redact(ts, r.kept), Redact(ts, r.w.buf), [NEWLINE]);
    }
  }

  /** However the input is cut into chunks and wherever the buffer overflows, a run that
      never collapses emits Redact(input), plus one newline exactly when bytes were still
      buffered at the final Flush. */
  lemma StreamingRefinesRedact(ts: seq<string>, limit: nat, ps: seq<string>)
    requires NonEmptyTargets(ts) && SingleLineTargets(ts)
    ensures var r := RunOf(ts, limit, Chunks(ps));
            r.past == [] ==>
              Step(ts, limit, r.w, Flush).out
              == Redact(ts, Concat(ps)) + if r.w.buf == "" then "" else [NEWLINE]
  {
    hide *;
    var r := RunOf(ts, limit, Chunks(ps));
    EveryRunIsAccounted(ts, limit, Chunks(ps));
    ChunksFeedConcat(ts, limit, ps);
    if r.past == [] {
      FlushCompletes(ts, limit, r);
    }
  }

  // ---------------------------------------------------------------------------
  // Which targets can survive, collapses included
  // ---------------------------------------------------------------------------

  lemma {:induction false} LedgerOutputIsClean(ts: seq<string>, past: seq<Collapse>, kept: string, v: string)
    requires NonEmptyTargets(ts) && v in ts && !Overlaps(v, PLACEHOLDER)
    ensures !Contains(OutputOf(ts, past) + Redact(ts, kept), v)
    decreases |past|
  {
    hide Redact, Overlaps;
    RedactedTextIsClean(ts, kept, v);
    if past == [] {
      assert "" + Redact(ts, kept) == Redact(ts, kept);
    } else {
      var n := |past| - 1;
      LedgerOutputIsClean(ts, past[..n], past[n].kept, v);
      CleanJoin(OutputOf(ts, past[..n]) + Redact(ts, past[n].kept), Redact(ts, kept), v);
    }
  }

  /** In any run of Write and Flush, the output as a whole contains no target that does not
      overlap the placeholder: not inside a segment, not across two. */
  lemma NoTargetSurvives(ts: seq<string>, limit: nat, ops: seq<Op>, v: string)
    requires NonEmptyTargets(ts) && SingleLineTargets(ts)
    requires v in ts && !Overlaps(v, PLACEHOLDER)
    ensures !Contains(RunOf(ts, limit, ops).w.out, v)
  {
    hide RunOf, Redact, OutputOf, Overlaps;
    var r := RunOf(ts, limit, ops);
    EveryRunIsAccounted(ts, limit, ops);
    LedgerOutputIsClean(ts, r.past, r.kept, v);
  }

  /** A configuration and a run in which the target `v` is found in the output. */
  ghost predicate Survives(ts: seq<string>, limit: nat, ops: seq<Op>, v: string) {
    && NonEmptyTargets(ts) && SingleLineTargets(ts) && LongestFirst(ts) && limit > 0
    && v in ts && Contains(RunOf(ts, limit, ops).w.out, v)
  }

  lemma ShortWrite(ts: seq<string>, s: string)
    requires NonEmptyTargets(ts) && SingleLine(s)
    ensures Step(ts, |s| + 1, Stream("", ""), Write(s)) == Stream(s, "")
  {
    hide Redact;
    assert "" + s == s && LastNewline(s) == -1;
    RedactNothing(ts);
    assert s[..0] == "" && s[0..] == s && "" + "" == "";
  }

  lemma ShortRun(ts: seq<string>, s: string)
    requires NonEmptyTargets(ts) && SingleLineTargets(ts) && SingleLine(s) && s != ""
    ensures RunOf(ts, |s| + 1, [Write(s), Flush]).w.out == Redact(ts, s) + [NEWLINE]
  {
    hide Redact, SingleLineTargets, NonEmptyTargets, RunStep, Step, RunOf, SingleLine;
    var limit, write := |s| + 1, Write(s);
    var r := RunOf(ts, limit, [write]);
    assert [] + [write] == [write] && [write] + [Flush] == [write, Flush];
    RunOfNothing(ts, limit);
    RunOfSnoc(ts, limit, [], write);
    RunFollowsSteps(ts, limit, START, write);
    ShortWrite(ts, s);
    assert r.w == Stream(s, "");
    RunOfSnoc(ts, limit, [write], Flush);
    RunFollowsSteps(ts, limit, r, Flush);
    FlushEmitsLine(ts, limit, r.w);
    assert "" + (Redact(ts, s) + [NEWLINE]) == Redact(ts, s) + [NEWLINE];
  }

  lemma RunOfNothing(ts: seq<string>, limit: nat)
    requires NonEmptyTargets(ts)
    ensures RunOf(ts, limit, []) == START
  {}

  lemma RunOfSnoc(ts: seq<string>, limit: nat, ops: seq<Op>, op: Op)
    requires NonEmptyTargets(ts)
    ensures RunOf(ts, limit, ops + [op]) == RunStep(ts, limit, RunOf(ts, limit, ops), op)
  {
    hide RunStep;
    assert (ops + [op])[..|ops|] == ops;
  }

  /**
   * Exactly which targets are safe, whatever else is configured and written: a target can
   * be found in the output of some run if and only if it overlaps the placeholder.
   */
  lemma TargetSurvivesIff(v: string)
    requires v != "" && SingleLine(v)
    ensures (exists ts: seq<string>, limit: nat, ops: seq<Op> :: Survives(ts, limit, ops, v))
            <==> Overlaps(v, PLACEHOLDER)
  {
    hide Overlaps, RunOf, Redact;
    forall ts: seq<string>, limit: nat, ops: seq<Op> | Survives(ts, limit, ops, v)
      ensures Overlaps(v, PLACEHOLDER)
    {
      if !Overlaps(v, PLACEHOLDER) {
        NoTargetSurvives(ts, limit, ops, v);
      }
    }
    if Overlaps(v, PLACEHOLDER) {
      var ts, s := OverlapSurvives(v);
      var r := Redact(ts, s);
      RedactNothing(ts);
      ShortRun(ts, s);
      var i :| OccursAt(r, v, i);
      assert (r + [NEWLINE])[i..i + |v|] == r[i..i + |v|];
      assert OccursAt(r + [NEWLINE], v, i);
      assert Survives(ts, |s| + 1, [Write(s), Flush], v);
    }
  }

  /** A concrete one: the word the placeholder itself spells. */
  lemma PlaceholderBytesCanSurvive()
    ensures var ts := ["REDACTED"];
            NonEmptyTargets(ts) && SingleLineTargets(ts) && Contains(Redact(ts, "REDACTED"), ts[0])
  {
    var ts := ["REDACTED"];
    assert ts[0] <= "REDACTED" && MatchLength(ts, "REDACTED") == 8;
    assert Redact(ts, "REDACTED"[8..]) == "";
    assert Redact(ts, "REDACTED") == PLACEHOLDER + "" == PLACEHOLDER;
    assert PLACEHOLDER[1..1 + 8] == ts[0];
    assert OccursAt(PLACEHOLDER, ts[0], 1);
  }
}
