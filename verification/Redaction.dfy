/** Whole-string redaction and the cut points at which a buffered stream may be
    divided. One `char` stands for one byte of the original; nothing below depends
    on the size of the alphabet. */
module Redaction {
  import opened Basics

  const PLACEHOLDER := "[REDACTED]"
  const NEWLINE := '\n'

  /** Redaction targets are never empty: values shorter than six bytes are dropped. */
  predicate NonEmptyTargets(ts: seq<string>) {
    forall k | 0 <= k < |ts| :: ts[k] != ""
  }

  predicate SingleLine(v: string) {
    NEWLINE !in v
  }

  predicate SingleLineTargets(ts: seq<string>) {
    forall v | v in ts :: SingleLine(v)
  }

  predicate LongestFirst(ts: seq<string>) {
    forall i, j | 0 <= i < j < |ts| :: |ts[i]| >= |ts[j]|
  }

  predicate OccursAt(s: string, v: string, i: int) {
    0 <= i && i + |v| <= |s| && s[i..i + |v|] == v
  }

  ghost predicate Contains(s: string, v: string) {
    exists i :: OccursAt(s, v, i)
  }

  /** `v`, laid over `p` at offset `d`, covers part of it and agrees with all it covers. */
  predicate AgreesAt(v: string, p: string, d: int) {
    && -|v| < d < |p|
    && forall k | 0 <= k < |v| && 0 <= d + k < |p| :: v[k] == p[d + k]
  }

  ghost predicate Overlaps(v: string, p: string) {
    exists d :: AgreesAt(v, p, d)
  }

  /** Length of the first target, in list order, that `s` starts with; 0 if none. */
  function MatchLength(ts: seq<string>, s: string): (n: nat)
    requires NonEmptyTargets(ts)
    ensures n <= |s|
  {
    if ts == [] then 0
    else if ts[0] <= s then |ts[0]|
    else MatchLength(ts[1..], s)
  }

  /** A match is one of the targets, and there is one exactly when some target fits. */
  lemma {:induction false} MatchIsTarget(ts: seq<string>, s: string)
    requires NonEmptyTargets(ts)
    ensures MatchLength(ts, s) > 0 ==> s[..MatchLength(ts, s)] in ts
    ensures MatchLength(ts, s) == 0 <==> forall v | v in ts :: !(v <= s)
  {
    if ts != [] && ts[0] <= s {
      assert s[..|ts[0]|] == ts[0];
    } else if ts != [] {
      MatchIsTarget(ts[1..], s);
      assert forall k | 0 <= k < |ts| - 1 :: ts[1..][k] == ts[k + 1];
      assert forall v | v in ts :: v == ts[0] || v in ts[1..];
    }
  }

  /** How far one replacement step advances, and what it emits for those bytes. */
  function Advance(ts: seq<string>, s: string): (k: nat)
    requires NonEmptyTargets(ts) && s != ""
    ensures 0 < k <= |s|
  {
    if MatchLength(ts, s) > 0 then MatchLength(ts, s) else 1
  }

  function Emitted(ts: seq<string>, s: string): string
    requires NonEmptyTargets(ts) && s != ""
  {
    if MatchLength(ts, s) > 0 then PLACEHOLDER else [s[0]]
  }

  /** Replaces matches left to right, never overlapping, first target in list order
      winning at each position. */
  function Redact(ts: seq<string>, s: string): string
    requires NonEmptyTargets(ts)
    decreases |s|
  {
    if s == "" then "" else Emitted(ts, s) + Redact(ts, s[Advance(ts, s)..])
  }

  // ---------------------------------------------------------------------------
  // The order of equally long targets does not matter
  // ---------------------------------------------------------------------------

  /** With the list sorted longest first, the match is the longest target present. */
  lemma {:induction false} LongestMatchWins(ts: seq<string>, s: string, v: string)
    requires NonEmptyTargets(ts) && LongestFirst(ts) && v in ts && v <= s
    ensures |v| <= MatchLength(ts, s)
  {
    if !(ts[0] <= s) {
      assert v in ts[1..];
      LongestMatchWins(ts[1..], s, v);
    }
  }

  /** Two longest-first orderings of one target set redact alike, whatever order the
      sort left equally long targets in. */
  lemma {:induction false} RedactIgnoresTieOrder(ts: seq<string>, us: seq<string>, s: string)
    requires NonEmptyTargets(ts) && LongestFirst(ts)
    requires NonEmptyTargets(us) && LongestFirst(us)
    requires forall v :: v in ts <==> v in us
    ensures Redact(ts, s) == Redact(us, s)
    decreases |s|
  {
    if s != "" {
      MatchIsTarget(ts, s);
      MatchIsTarget(us, s);
      var n, m := MatchLength(ts, s), MatchLength(us, s);
      if n > 0 { LongestMatchWins(us, s, s[..n]); }
      if m > 0 { LongestMatchWins(ts, s, s[..m]); }
      assert n == m;
      RedactIgnoresTieOrder(ts, us, s[if n > 0 then n else 1..]);
    }
  }

  lemma RedactUnfolds(ts: seq<string>, s: string)
    requires NonEmptyTargets(ts) && s != ""
    ensures Redact(ts, s) == Emitted(ts, s) + Redact(ts, s[Advance(ts, s)..])
  {}

  /** The longest target a text starts with gives way to exactly one placeholder, and what is
      behind it is redacted on its own; a byte no target starts at is copied. */
  lemma LongestTargetIsReplaced(ts: seq<string>, v: string, c: char, t: string)
    requires NonEmptyTargets(ts) && LongestFirst(ts)
    ensures Redact(ts, "") == ""
    ensures v in ts && (forall u | u in ts && u <= v + t :: |u| <= |v|) ==>
              Redact(ts, v + t) == PLACEHOLDER + Redact(ts, t)
    ensures (forall u | u in ts :: !(u <= [c] + t)) ==> Redact(ts, [c] + t) == [c] + Redact(ts, t)
  {
    var s, n := v + t, MatchLength(ts, v + t);
    MatchIsTarget(ts, s);
    MatchIsTarget(ts, [c] + t);
    if v in ts && forall u | u in ts && u <= s :: |u| <= |v| {
      assert v <= s;
      LongestMatchWins(ts, s, v);
      assert s[..n] <= s && n == |v|;
      assert s[n..] == t;
      RedactUnfolds(ts, s);
    }
    assert ([c] + t)[1..] == t;
    RedactUnfolds(ts, [c] + t);
    hide Redact, MatchLength;
  }

  // ---------------------------------------------------------------------------
  // No target survives
  // ---------------------------------------------------------------------------

  /** Redacted text is verbatim input up to its first placeholder. */
  lemma {:induction false} VerbatimUpToPlaceholder(ts: seq<string>, s: string, n: nat)
    requires NonEmptyTargets(ts) && n <= |Redact(ts, s)|
    requires forall k | 0 <= k < n :: !OccursAt(Redact(ts, s), PLACEHOLDER, k)
    ensures n <= |s| && Redact(ts, s)[..n] == s[..n]
    decreases |s|
  {
    if n > 0 {
      var r := Redact(ts, s);
      assert !OccursAt(r, PLACEHOLDER, 0);
      VerbatimStep(ts, s);
      hide Redact, NonEmptyTargets;
      var q := Redact(ts, s[1..]);
      assert r == [s[0]] + q;
      forall k | 0 <= k < n - 1 ensures !OccursAt(q, PLACEHOLDER, k) {
        var j := k + 1;
        assert !OccursAt(r, PLACEHOLDER, j);
        OccursShifted([s[0]], q, PLACEHOLDER, k);
      }
      VerbatimUpToPlaceholder(ts, s[1..], n - 1);
      assert r[..n] == [s[0]] + q[..n - 1];
      assert s[..n] == [s[0]] + s[1..][..n - 1];
    }
  }

  lemma OccursShifted(a: string, b: string, v: string, i: int)
    ensures OccursAt(b, v, i) ==> OccursAt(a + b, v, |a| + i)
    ensures i >= 0 && OccursAt(a + b, v, |a| + i) ==> OccursAt(b, v, i)
  {
    if 0 <= i && i + |v| <= |b| {
      assert (a + b)[|a| + i..|a| + i + |v|] == b[i..i + |v|];
    }
  }

  lemma VerbatimStep(ts: seq<string>, s: string)
    requires NonEmptyTargets(ts) && |Redact(ts, s)| > 0 && !OccursAt(Redact(ts, s), PLACEHOLDER, 0)
    ensures s != "" && Redact(ts, s) == [s[0]] + Redact(ts, s[1..])
  {
    if s != "" {
      MatchEmitsPlaceholder(ts, s);
      RedactUnfolds(ts, s);
      hide Redact;
    }
  }

  lemma MatchEmitsPlaceholder(ts: seq<string>, s: string)
    requires NonEmptyTargets(ts) && s != ""
    ensures MatchLength(ts, s) > 0 ==> OccursAt(Redact(ts, s), PLACEHOLDER, 0)
  {
    RedactUnfolds(ts, s);
    if MatchLength(ts, s) > 0 {
      hide Redact;
      var rest := Redact(ts, s[Advance(ts, s)..]);
      assert (PLACEHOLDER + rest)[..|PLACEHOLDER|] == PLACEHOLDER;
    }
  }

  /** Two strings that occur in one text and share a position overlap. */
  lemma OccurrencesAgree(s: string, v: string, i: int, w: string, j: int)
    requires OccursAt(s, v, i) && OccursAt(s, w, j) && i < j + |w| && j < i + |v|
    ensures AgreesAt(v, w, i - j)
  {
    forall k | 0 <= k < |v| && 0 <= i - j + k < |w| ensures v[k] == w[i - j + k] {
      assert v[k] == s[i..i + |v|][k] == s[i + k] == s[j..j + |w|][i - j + k];
    }
  }

  /** Text joined by a placeholder contains `v` only if one of the parts does. */
  lemma PlaceholderSplits(a: string, b: string, v: string, i: int)
    requires v != "" && !Overlaps(v, PLACEHOLDER)
    requires OccursAt(a + PLACEHOLDER + b, v, i)
    ensures OccursAt(a, v, i) || OccursAt(b, v, i - |a| - |PLACEHOLDER|)
  {
    var s := a + PLACEHOLDER + b;
    var lo, hi := |a|, |a| + |PLACEHOLDER|;
    assert s[lo..hi] == PLACEHOLDER;
    if i < hi && lo < i + |v| {
      OccurrencesAgree(s, v, i, PLACEHOLDER, lo);
    }
    if i + |v| <= lo {
      assert a[i..i + |v|] == s[i..i + |v|];
    } else {
      assert b[i - hi..i - hi + |v|] == s[i..i + |v|];
    }
  }

  lemma CleanJoin(a: string, b: string, v: string)
    requires v != "" && !Overlaps(v, PLACEHOLDER)
    ensures Contains(a + PLACEHOLDER + b, v) ==> Contains(a, v) || Contains(b, v)
  {
    forall i | OccursAt(a + PLACEHOLDER + b, v, i) ensures Contains(a, v) || Contains(b, v) {
      PlaceholderSplits(a, b, v, i);
    }
  }

  /** A target that does not overlap the placeholder occurs nowhere in redacted text. */
  lemma {:induction false} RedactedTextIsClean(ts: seq<string>, s: string, v: string)
    requires NonEmptyTargets(ts) && v in ts && !Overlaps(v, PLACEHOLDER)
    ensures !Contains(Redact(ts, s), v)
    decreases |s|
  {
    hide Overlaps, MatchLength;
    var n := MatchLength(ts, s);
    MatchIsTarget(ts, s);
    if n > 0 {
      RedactedTextIsClean(ts, s[n..], v);
      CleanJoin("", Redact(ts, s[n..]), v);
      assert Redact(ts, s) == "" + PLACEHOLDER + Redact(ts, s[n..]);
    } else if s != "" {
      RedactedTextIsClean(ts, s[1..], v);
      var r, t := Redact(ts, s), Redact(ts, s[1..]);
      assert r == [s[0]] + t;
      forall i | OccursAt(r, v, i) ensures i == 0 || OccursAt(t, v, i - 1) {
        OccursShifted([s[0]], t, v, i - 1);
      }
      if OccursAt(r, v, 0) {
        NoPlaceholderWithin(r, v);
        VerbatimUpToPlaceholder(ts, s, |v|);
      }
    }
  }

  lemma NoPlaceholderWithin(r: string, v: string)
    requires OccursAt(r, v, 0) && !Overlaps(v, PLACEHOLDER)
    ensures forall k | 0 <= k < |v| :: !OccursAt(r, PLACEHOLDER, k)
  {
    forall k | 0 <= k < |v| && OccursAt(r, PLACEHOLDER, k) ensures AgreesAt(v, PLACEHOLDER, -k) {
      OccurrencesAgree(r, v, 0, PLACEHOLDER, k);
    }
  }

  // ---------------------------------------------------------------------------
  // A target that overlaps the placeholder can be put together by a replacement
  // ---------------------------------------------------------------------------

  /** Stretches without a match are copied. */
  lemma {:induction false} PassesOver(ts: seq<string>, a: string, t: string)
    requires NonEmptyTargets(ts)
    requires forall i | 0 <= i < |a| :: MatchLength(ts, a[i..] + t) == 0
    ensures Redact(ts, a + t) == a + Redact(ts, t)
    decreases a
  {
    hide MatchLength, Redact, NonEmptyTargets;
    if a == "" {
      assert a + t == t && a + Redact(ts, t) == Redact(ts, t);
    } else {
      var rest := a[1..];
      assert a[0..] + t == a + t && (a + t)[1..] == rest + t;
      forall i | 0 <= i < |rest| ensures MatchLength(ts, rest[i..] + t) == 0 {
        var j := i + 1;
        assert rest[i..] == a[j..];
      }
      PassesOver(ts, rest, t);
      RedactUnfolds(ts, a + t);
      ConcatAssociates([a[0]], rest, Redact(ts, t));
      assert a == [a[0]] + rest;
    }
  }

  /** A byte other than the two given and other than a newline. */
  function Other(c: char, d: char): (x: char)
    ensures x != c && x != d && x != NEWLINE
  {
    if 'a' != c && 'a' != d then 'a' else if 'b' != c && 'b' != d then 'b' else 'c'
  }

  function Filler(x: char, n: nat): (s: string)
    ensures |s| == n && forall i | 0 <= i < n :: s[i] == x
  {
    seq(n, i => x)
  }

  lemma NeitherFits(w: string, v: string, t: string)
    requires w != "" && v != "" && !(w <= t) && !(v <= t)
    ensures NonEmptyTargets([w, v]) && MatchLength([w, v], t) == 0
  {
    MatchIsTarget([w, v], t);
    hide MatchLength;
  }

  /** `w`, a run of one byte longer than `v`, and what may stand before and behind it for
      `w` to be the only match. */
  predicate OnlyBait(a: string, w: string, b: string, v: string, x: char) {
    && w == Filler(x, |v| + 1) && |a| < |v| && |b| < |v| && x != v[|v| - 1]
    && (a != "" ==> x != a[|a| - 1])
  }

  lemma NothingBeforeBait(a: string, w: string, b: string, v: string, x: char, i: nat)
    requires OnlyBait(a, w, b, v, x) && i < |a|
    ensures var t := a[i..] + (w + b); !(w <= t) && !(v <= t)
  {
    var t := a[i..] + (w + b);
    var n := |a| - i;
    assert t[n - 1] == a[|a| - 1] && w[n - 1] == x;
    assert t[|v| - 1] == w[|v| - 1 - n] == x;
  }

  lemma BaitIsReplaced(a: string, w: string, b: string, v: string, x: char)
    requires OnlyBait(a, w, b, v, x)
    ensures NonEmptyTargets([w, v]) && Redact([w, v], a + (w + b)) == a + (PLACEHOLDER + b)
  {
    hide Redact, MatchLength;
    var ts := [w, v];
    forall i: nat | i < |a| ensures MatchLength(ts, a[i..] + (w + b)) == 0 {
      NothingBeforeBait(a, w, b, v, x, i);
      NeitherFits(w, v, a[i..] + (w + b));
    }
    PassesOver(ts, a, w + b);
    forall i: nat | i < |b| ensures MatchLength(ts, b[i..] + "") == 0 {
      NeitherFits(w, v, b[i..] + "");
    }
    PassesOver(ts, b, "");
    BaitMatches(w, v, b);
    RedactNothing(ts);
    assert b + "" == b && (w + b)[|w|..] == b;
    RedactUnfolds(ts, w + b);
  }

  lemma BaitMatches(w: string, v: string, b: string)
    requires w != "" && v != ""
    ensures NonEmptyTargets([w, v]) && MatchLength([w, v], w + b) == |w|
  {
    assert w <= w + b;
  }

  lemma RedactNothing(ts: seq<string>)
    requires NonEmptyTargets(ts)
    ensures Redact(ts, "") == ""
  {}

  lemma OverlapReappears(a: string, b: string, v: string, d: int)
    requires AgreesAt(v, PLACEHOLDER, d)
    requires a == if d < 0 then v[..-d] else ""
    requires b == if d + |v| > |PLACEHOLDER| then v[|PLACEHOLDER| - d..] else ""
    ensures Contains(a + (PLACEHOLDER + b), v)
  {
    var r := a + (PLACEHOLDER + b);
    var i := |a| + d;
    forall k | 0 <= k < |v| ensures r[i + k] == v[k] {
      if 0 <= d + k < |PLACEHOLDER| {
        assert r[i + k] == PLACEHOLDER[d + k];
      }
    }
    assert r[i..i + |v|] == v;
    assert OccursAt(r, v, i);
  }

  /** Some targets and input make `v` appear in the redacted text although it is a target. */
  lemma OverlapSurvives(v: string) returns (ts: seq<string>, s: string)
    requires v != "" && SingleLine(v) && Overlaps(v, PLACEHOLDER)
    ensures NonEmptyTargets(ts) && SingleLineTargets(ts) && LongestFirst(ts) && v in ts && SingleLine(s)
    ensures Contains(Redact(ts, s), v)
  {
    hide Redact, Contains;
    var d :| AgreesAt(v, PLACEHOLDER, d);
    var a := if d < 0 then v[..-d] else "";
    var b := if d + |v| > |PLACEHOLDER| then v[|PLACEHOLDER| - d..] else "";
    OverlapReappears(a, b, v, d);
    var x := Other(v[|v| - 1], if a == "" then 'a' else a[|a| - 1]);
    var w := Filler(x, |v| + 1);
    ts, s := [w, v], a + (w + b);
    hide AgreesAt;
    BaitIsReplaced(a, w, b, v, x);
    assert SingleLine(w) && SingleLine(a) && SingleLine(b);
  }

  // ---------------------------------------------------------------------------
  // Cutting: where redacting two halves agrees with redacting the whole
  // ---------------------------------------------------------------------------

  /** An occurrence of `v` starting at `i` covers bytes on both sides of `c`. */
  predicate Straddles(s: string, v: string, i: int, c: int) {
    OccursAt(s, v, i) && i < c < i + |v|
  }

  ghost predicate Safe(ts: seq<string>, s: string, c: int) {
    forall v, i | v in ts :: !Straddles(s, v, i, c)
  }

  lemma PrefixBeforeCut(s: string, v: string, c: int)
    requires 0 < c <= |s| && !Straddles(s, v, 0, c)
    ensures v <= s[..c] <==> v <= s
  {
    if v <= s {
      assert s[0..0 + |v|] == v;
      assert OccursAt(s, v, 0);
      assert |v| <= c;
    }
  }

  lemma {:induction false} MatchLengthBeforeCut(ts: seq<string>, s: string, c: int)
    requires NonEmptyTargets(ts) && 0 < c <= |s|
    requires forall k | 0 <= k < |ts| :: !Straddles(s, ts[k], 0, c)
    ensures MatchLength(ts, s[..c]) == MatchLength(ts, s)
  {
    if ts != [] {
      PrefixBeforeCut(s, ts[0], c);
      if !(ts[0] <= s) {
        MatchLengthBeforeCut(ts[1..], s, c);
      }
    }
  }

  lemma StraddlesShift(s: string, n: nat, v: string, i: int, c: int)
    requires n <= |s|
    ensures Straddles(s[n..], v, i, c) ==> Straddles(s, v, i + n, c + n)
  {
    if Straddles(s[n..], v, i, c) {
      assert s[i + n..i + n + |v|] == s[n..][i..i + |v|];
    }
  }

  lemma SafeInSuffix(ts: seq<string>, a: string, b: string, n: nat)
    requires n <= |a| && Safe(ts, a + b, |a|)
    ensures (a + b)[n..] == a[n..] + b && Safe(ts, a[n..] + b, |a[n..]|)
  {
    var t, c := a[n..] + b, |a[n..]|;
    assert (a + b)[n..] == t;
    forall v, i | v in ts ensures !Straddles(t, v, i, c) {
      StraddlesShift(a + b, n, v, i, c);
    }
  }

  /** One replacement step does not see past a safe cut. */
  lemma StepBeforeCut(ts: seq<string>, a: string, b: string)
    requires NonEmptyTargets(ts) && a != "" && Safe(ts, a + b, |a|)
    ensures Advance(ts, a + b) == Advance(ts, a) && Emitted(ts, a + b) == Emitted(ts, a)
  {
    assert (a + b)[..|a|] == a;
    MatchLengthBeforeCut(ts, a + b, |a|);
  }

  /** Redaction distributes over a cut that no occurrence straddles. */
  lemma {:induction false} RedactDistributes(ts: seq<string>, a: string, b: string)
    requires NonEmptyTargets(ts) && Safe(ts, a + b, |a|)
    ensures Redact(ts, a + b) == Redact(ts, a) + Redact(ts, b)
    decreases |a|
  {
    if a == "" {
      assert a + b == b;
    } else {
      StepBeforeCut(ts, a, b);
      var k := Advance(ts, a);
      SafeInSuffix(ts, a, b, k);
      RedactDistributes(ts, a[k..], b);
      RedactUnfolds(ts, a);
      RedactUnfolds(ts, a + b);
      ConcatAssociates(Emitted(ts, a), Redact(ts, a[k..]), Redact(ts, b));
    }
  }

  // ---------------------------------------------------------------------------
  // Cuts that stay safe whatever bytes arrive later
  // ---------------------------------------------------------------------------

  /** The bytes of `s` from `i` on agree with `v` as far as both go. */
  predicate MayOccurAt(s: string, v: string, i: int) {
    0 <= i && forall k | 0 <= k < |v| && i + k < |s| :: v[k] == s[i + k]
  }

  /** No target occurrence, complete or still growing at the end of `s`, straddles `c`. */
  ghost predicate Settled(ts: seq<string>, s: string, c: int) {
    forall v, i | v in ts && i < c < i + |v| :: !MayOccurAt(s, v, i)
  }

  lemma SettledIsSafe(ts: seq<string>, s: string, c: int)
    requires Settled(ts, s, c)
    ensures Safe(ts, s, c)
  {
    forall v, i | Straddles(s, v, i, c) ensures MayOccurAt(s, v, i) {
      var w := s[i..i + |v|];
      assert forall k | 0 <= k < |w| :: w[k] == s[i + k];
    }
  }

  lemma SettledExtends(ts: seq<string>, s: string, f: string, c: int)
    requires c <= |s| && Settled(ts, s, c)
    ensures Settled(ts, s + f, c)
  {
    forall v, i | i < c && MayOccurAt(s + f, v, i) ensures MayOccurAt(s, v, i) {
      forall k | 0 <= k < |v| && i + k < |s| ensures v[k] == s[i + k] {
        assert (s + f)[i + k] == s[i + k];
      }
    }
  }

  lemma SafeInPrefix(ts: seq<string>, s: string, f: string, c: int)
    requires Safe(ts, s + f, c)
    ensures Safe(ts, s, c)
  {
    var t := s + f;
    forall v, i | Straddles(s, v, i, c) ensures Straddles(t, v, i, c) {
      assert t[i..i + |v|] == s[i..i + |v|];
    }
  }

  /** Nothing single-line straddles the position just past a newline. */
  lemma SettledAfterNewline(ts: seq<string>, s: string, c: int)
    requires SingleLineTargets(ts) && 0 < c <= |s| && s[c - 1] == NEWLINE
    ensures Settled(ts, s, c)
  {
    forall v, i | i < c < i + |v| && MayOccurAt(s, v, i) ensures !SingleLine(v) {
      assert v[c - 1 - i] == s[c - 1];
    }
  }

  /** A cut settled within the unsettled tail is settled within the whole. */
  lemma SettledDeeper(ts: seq<string>, s: string, b: nat, c: nat)
    requires b <= c <= |s| && Settled(ts, s, b) && Settled(ts, s[b..], c - b)
    ensures Settled(ts, s, c)
  {
    var t := s[b..];
    forall v, i | b <= i < c && MayOccurAt(s, v, i) ensures MayOccurAt(t, v, i - b) {
      forall k | 0 <= k < |v| && i - b + k < |t| ensures v[k] == t[i - b + k] {
        assert t[i - b + k] == s[i + k];
      }
    }
  }

  // ---------------------------------------------------------------------------
  // The two bounds the overflow path computes
  // ---------------------------------------------------------------------------

  /** The last `k` bytes of `buf` are a proper prefix of some target. */
  predicate HoldsBack(ts: seq<string>, buf: string, k: int) {
    0 <= k <= |buf| && exists v | v in ts :: k < |v| && buf[|buf| - k..] == v[..k]
  }

  function HoldUpTo(ts: seq<string>, buf: string, limit: nat): (k: nat)
    ensures k <= limit
  {
    if limit == 0 || HoldsBack(ts, buf, limit) then limit else HoldUpTo(ts, buf, limit - 1)
  }

  /** Length of the longest suffix of `buf` that is a proper prefix of some target. */
  function Hold(ts: seq<string>, buf: string): (k: nat)
    ensures k <= |buf|
  {
    HoldUpTo(ts, buf, |buf|)
  }

  /** `Hold` is the only length with this property. */
  lemma {:induction false} HoldIsLongest(ts: seq<string>, buf: string, limit: nat)
    ensures var k := HoldUpTo(ts, buf, limit);
            && (k > 0 ==> HoldsBack(ts, buf, k))
            && forall j | k < j <= limit :: !HoldsBack(ts, buf, j)
  {
    if limit > 0 && !HoldsBack(ts, buf, limit) {
      HoldIsLongest(ts, buf, limit - 1);
    }
  }

  /** The greatest position at or below `c` that no occurrence straddles. */
  ghost function GreatestSafe(ts: seq<string>, s: string, c: nat): (r: nat)
    ensures r <= c
  {
    if c == 0 || Safe(ts, s, c) then c else GreatestSafe(ts, s, c - 1)
  }

  lemma {:induction false} GreatestSafeIsGreatest(ts: seq<string>, s: string, c: nat)
    ensures Safe(ts, s, GreatestSafe(ts, s, c))
    ensures forall p | GreatestSafe(ts, s, c) < p <= c :: !Safe(ts, s, p)
  {
    if c > 0 && !Safe(ts, s, c) {
      GreatestSafeIsGreatest(ts, s, c - 1);
    }
  }

  /** A safe cut below everything held back stays safe for every continuation. */
  lemma SafeBelowHoldIsSettled(ts: seq<string>, buf: string, c: int)
    requires 0 <= c <= |buf| - Hold(ts, buf) && Safe(ts, buf, c)
    ensures Settled(ts, buf, c)
  {
    HoldIsLongest(ts, buf, |buf|);
    forall v, i | v in ts && i < c < i + |v| && MayOccurAt(buf, v, i)
      ensures Straddles(buf, v, i, c) || HoldsBack(ts, buf, |buf| - i)
    {
      var k := if i + |v| <= |buf| then |v| else |buf| - i;
      assert buf[i..i + k] == v[..k];
    }
  }

  /** Byte `j` of `s` lies inside some target occurrence. */
  ghost predicate Secret(ts: seq<string>, s: string, j: int) {
    exists v, i :: v in ts && OccursAt(s, v, i) && i <= j < i + |v|
  }

  /** Everything between the greatest safe position and the position it was lowered
      from is secret, so a head with no safe cut holds nothing but secret bytes. */
  lemma LoweredPastSecretsOnly(ts: seq<string>, s: string, c: nat, j: nat)
    requires GreatestSafe(ts, s, c) <= j < c
    ensures Secret(ts, s, j)
  {
    GreatestSafeIsGreatest(ts, s, c);
    assert !Safe(ts, s, j + 1);
    var v, i :| v in ts && Straddles(s, v, i, j + 1);
    assert OccursAt(s, v, i) && i <= j < i + |v|;
  }

  lemma SecretExtends(ts: seq<string>, a: string, s: string, b: string, j: nat)
    requires Secret(ts, s, j)
    ensures Secret(ts, a + s + b, |a| + j)
  {
    var v, i :| v in ts && OccursAt(s, v, i) && i <= j < i + |v|;
    var t := a + s + b;
    assert t[|a| + i..|a| + i + |v|] == s[i..i + |v|];
    assert OccursAt(t, v, |a| + i);
  }
}
