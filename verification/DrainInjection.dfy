/** Injecting connection draining into rendered VCL: where the drain backend, the drain sub
    and `import std` go, and that the rest of the program is left as it is. */
module DrainInjection {
  import opened Basics
  import opened VclLexer
  import opened VclBlocks

  /** A regular-expression match. */
  datatype Range = Range(start: nat, end: nat)

  type Matcher = string -> seq<Range>

  /** The line-anchored patterns: `import std;`, `backend x {`, `sub vcl_deliver {`, `vcl X.Y;`. */
  datatype Syntax = Syntax(imports: Matcher, backends: Matcher, delivers: Matcher, versions: Matcher)

  /** Matches are not empty, inside the text, and in ascending order without overlap. */
  predicate Fits(rs: seq<Range>, n: nat) {
    && (forall i | 0 <= i < |rs| :: rs[i].start < rs[i].end <= n)
    && (forall i, j | 0 <= i < j < |rs| :: rs[i].end <= rs[j].start)
  }

  ghost predicate Regular(syn: Syntax) {
    && (forall t :: Fits(syn.imports(t), |t|))
    && (forall t :: Fits(syn.backends(t), |t|))
    && (forall t :: Fits(syn.delivers(t), |t|))
    && (forall t :: Fits(syn.versions(t), |t|))
  }

  // ---------------------------------------------------------------------------
  // What is found
  // ---------------------------------------------------------------------------

  /** The matches that are structure. */
  function Live(vcl: string, rs: seq<Range>): seq<Range> {
    if rs == [] then []
    else (if HiddenAt(vcl, rs[0].start) then [] else [rs[0]]) + Live(vcl, rs[1..])
  }

  function Imports(vcl: string, syn: Syntax): seq<Range> {
    Live(vcl, syn.imports(vcl))
  }

  function VersionEnd(vcl: string, syn: Syntax): nat {
    var rs := Live(vcl, syn.versions(vcl));
    if rs == [] then 0 else rs[0].end
  }

  function DeliverStart(vcl: string, syn: Syntax): Option<nat> {
    var rs := Live(vcl, syn.delivers(vcl));
    if rs == [] then None else Some(rs[0].start)
  }

  /** Just past the block opened at `open` and one newline; past the brace if it never closes. */
  function BlockEnd(vcl: string, open: nat): (r: nat)
    requires open < |vcl|
    ensures open < r <= |vcl|
  {
    var c := CloseBrace(vcl[open + 1..], 1);
    if c.None? then open + 1
    else
      var e := open + 1 + c.value;
      if e < |vcl| && vcl[e] == '\n' then e + 1 else e
  }

  function EndsOf(vcl: string, rs: seq<Range>): seq<nat>
    requires Fits(rs, |vcl|)
  {
    if rs == [] then []
    else
      assert Fits(rs[1..], |vcl|);
      [BlockEnd(vcl, rs[0].end - 1)] + EndsOf(vcl, rs[1..])
  }

  function Backends(vcl: string, syn: Syntax): seq<Range> {
    Live(vcl, syn.backends(vcl))
  }

  function Largest(ns: seq<nat>): nat {
    if ns == [] then 0
    else
      var front := Largest(ns[..|ns| - 1]);
      if ns[|ns| - 1] > front then ns[|ns| - 1] else front
  }

  lemma {:induction false} LiveFits(vcl: string, rs: seq<Range>, n: nat)
    requires Fits(rs, n)
    ensures Fits(Live(vcl, rs), n)
    ensures forall r | r in Live(vcl, rs) :: r in rs
  {
    if rs != [] {
      hide HiddenAt, Fits;
      FitsTail(rs, n);
      LiveFits(vcl, rs[1..], n);
      var live := Live(vcl, rs[1..]);
      assert forall r | r in live :: r in rs[1..] && r in rs;
      if !HiddenAt(vcl, rs[0].start) {
        FitsCons(rs, live, n);
      } else {
        assert Live(vcl, rs) == live;
      }
    } else {
      hide HiddenAt;
    }
  }

  lemma FitsTail(rs: seq<Range>, n: nat)
    requires Fits(rs, n) && rs != []
    ensures Fits(rs[1..], n)
  {}

  lemma FitsCons(rs: seq<Range>, more: seq<Range>, n: nat)
    requires Fits(rs, n) && rs != [] && Fits(more, n) && forall r | r in more :: r in rs[1..]
    ensures Fits([rs[0]] + more, n)
  {
    forall r | r in more ensures rs[0].end <= r.start {
      var i :| 0 <= i < |rs| - 1 && rs[1..][i] == r;
      var j := i + 1;
      assert rs[j] == r;
    }
  }

  lemma {:induction false} LargestIs(ns: seq<nat>)
    ensures forall n | n in ns :: n <= Largest(ns)
    ensures ns != [] && (forall n | n in ns :: n > 0) ==> Largest(ns) in ns
  {
    if ns != [] {
      var front, last := ns[..|ns| - 1], ns[|ns| - 1];
      assert ns == front + [last] && last in ns && forall n | n in front :: n in ns;
      LargestIs(front);
      if front == [] {
        assert Largest(front) == 0;
      }
    }
  }

  lemma {:induction false} EndsAreWithin(vcl: string, rs: seq<Range>)
    requires Fits(rs, |vcl|)
    ensures |EndsOf(vcl, rs)| == |rs|
    ensures rs != [] ==> EndsOf(vcl, rs)[0] == BlockEnd(vcl, rs[0].end - 1)
    ensures forall e | e in EndsOf(vcl, rs) :: 0 < e <= |vcl|
    decreases rs
  {
    if rs != [] {
      FitsTail(rs, |vcl|);
      StartsInOrder(rs, |vcl|, 0);
      hide BlockEnd, Fits;
      BlockEndIsPast(vcl, rs[0].end - 1);
      EndsAreWithin(vcl, rs[1..]);
    }
  }

  /** A position behind which the text is scanned like a text of its own, and before which it
      is scanned the same whatever follows: code between two tokens. */
  predicate InCode(t: string, k: nat) {
    k <= |t| && Reaches(t, Normal, k, Normal) && (k > 0 ==> Settles(t[k - 1]))
  }

  lemma InCodeIsNotHidden(t: string, k: nat)
    requires InCode(t, k)
    ensures Scan(t, Normal, k) == Normal && !HiddenAt(t, k)
  {
    ReachesScan(t, Normal, k, Normal, k);
    ScanHere(t[k..], Normal);
    hide Scan, Reaches;
  }

  predicate LineStart(t: string, k: nat) {
    k == 0 || (k <= |t| && t[k - 1] == '\n')
  }

  /** A line-anchored match that counts as structure starts in code, unless a quoted string
      is open across the line break. */
  lemma LineStartIsCode(vcl: string, k: nat)
    requires LineStart(vcl, k) && !HiddenAt(vcl, k) && Scan(vcl, Normal, k) != Quoted
    ensures InCode(vcl, k)
  {
    if k > 0 {
      LineStartReaches(vcl, Normal, k);
      hide Scan, Reaches;
    }
  }

  /** What the backend pattern matches: a line start, plain bytes, and an opening brace that
      does not open a long string. */
  predicate BackendShape(vcl: string, r: Range) {
    && r.start < r.end <= |vcl| && LineStart(vcl, r.start)
    && Plain(vcl[r.start..r.end - 1]) && vcl[r.end - 1] == '{'
    && !(r.end < |vcl| && vcl[r.end] == '"')
  }

  lemma PlainIsCode(vcl: string, from: nat, to: nat)
    requires from <= to <= |vcl| && Reaches(vcl, Normal, from, Normal) && Plain(vcl[from..to])
    ensures Reaches(vcl, Normal, to, Normal)
  {
    hide Reaches;
    PlainReaches(vcl[from..to], vcl[to..]);
    assert vcl[from..] == vcl[from..to] + vcl[to..];
    ReachesOn(vcl, Normal, from, Normal, to - from, Normal);
  }

  /** A match of plain bytes, such as a version line, ends in code. */
  lemma PlainMatchIsCode(vcl: string, r: Range)
    requires r.start < r.end <= |vcl| && LineStart(vcl, r.start)
    requires !HiddenAt(vcl, r.start) && Scan(vcl, Normal, r.start) != Quoted
    requires Plain(vcl[r.start..r.end]) && Settles(vcl[r.end - 1])
    ensures InCode(vcl, r.end)
  {
    LineStartIsCode(vcl, r.start);
    hide Scan, Reaches, Plain;
    PlainIsCode(vcl, r.start, r.end);
  }

  lemma BraceReaches(t: string)
    requires t != "" && t[0] == '{' && !Opens(t, '{', '"')
    ensures Reaches(t, Normal, 1, Normal)
  {
    assert LexStep(t, Normal) == (Normal, 1);
    ReachesOnce(t, Normal);
  }

  lemma OpenBraceIsCode(vcl: string, r: Range)
    requires BackendShape(vcl, r) && InCode(vcl, r.start)
    ensures Reaches(vcl, Normal, r.end, Normal)
  {
    hide Reaches, Plain;
    PlainIsCode(vcl, r.start, r.end - 1);
    BraceReaches(vcl[r.end - 1..]);
    ReachesOn(vcl, Normal, r.end - 1, Normal, 1, Normal);
  }

  /** In the scan of the whole text, the offset behind a closed backend block, newline
      included, is code between two tokens: nothing spliced there lands in a comment or a
      string, whatever the block contains. */
  lemma BackendEndIsCode(vcl: string, r: Range)
    requires BackendShape(vcl, r) && !HiddenAt(vcl, r.start) && Scan(vcl, Normal, r.start) != Quoted
    requires CloseBrace(vcl[r.end..], 1).Some?
    ensures InCode(vcl, BlockEnd(vcl, r.end - 1))
  {
    hide Scan, HiddenAt, Reaches, CloseBrace, Plain, Settles, InCode, BlockEnd;
    LineStartIsCode(vcl, r.start);
    OpenBraceIsCode(vcl, r);
    ClosedBlockIsCode(vcl, r.end);
    var e := r.end + CloseBrace(vcl[r.end..], 1).value;
    BlockEndIs(vcl, r.end - 1);
    if e < |vcl| && vcl[e] == '\n' {
      NewlineIsCode(vcl, e);
    }
  }

  lemma BlockEndIs(vcl: string, open: nat)
    requires open < |vcl| && CloseBrace(vcl[open + 1..], 1).Some?
    ensures var e := open + 1 + CloseBrace(vcl[open + 1..], 1).value;
            BlockEnd(vcl, open) == if e < |vcl| && vcl[e] == '\n' then e + 1 else e
  {
    hide CloseBrace;
  }

  lemma ClosedBlockIsCode(vcl: string, at: nat)
    requires at <= |vcl| && Reaches(vcl, Normal, at, Normal) && CloseBrace(vcl[at..], 1).Some?
    ensures InCode(vcl, at + CloseBrace(vcl[at..], 1).value)
  {
    hide Reaches, CloseBrace;
    var t := vcl[at..];
    var k := CloseBrace(t, 1).value;
    BlockEndIsCode(t, 1);
    EndsWithBrace(t, 1);
    ReachesOn(vcl, Normal, at, Normal, k, Normal);
    assert t[k - 1] == vcl[at + k - 1];
  }

  lemma NewlineIsCode(vcl: string, k: nat)
    requires InCode(vcl, k) && k < |vcl| && vcl[k] == '\n'
    ensures InCode(vcl, k + 1)
  {
    hide Reaches;
    assert vcl[k..k + 1] == "\n";
    PlainIsCode(vcl, k, k + 1);
  }

  // ---------------------------------------------------------------------------
  // Commenting out late imports
  // ---------------------------------------------------------------------------

  function TrimNewlines(t: string): (r: string)
    ensures r <= t
  {
    if t != "" && t[|t| - 1] == '\n' then TrimNewlines(t[..|t| - 1]) else t
  }

  const MOVED_NOTE := " Commented out by k8s-httpcache;" + " moved to the top of the VCL."
  const MOVED := "//" + (MOVED_NOTE + "\n")

  function Commented(matched: string): string {
    MOVED + ("// " + TrimNewlines(matched) + "\n")
  }

  /** `vcl` from `prev` on, every match that starts at or after `from` commented out. */
  function CommentOut(vcl: string, rs: seq<Range>, from: nat, prev: nat): string
    requires Fits(rs, |vcl|) && prev <= |vcl| && (rs != [] ==> prev <= rs[0].start)
  {
    if rs == [] then vcl[prev..]
    else
      assert Fits(rs[1..], |vcl|);
      if rs[0].start < from then CommentOut(vcl, rs[1..], from, prev)
      else
        vcl[prev..rs[0].start] + Commented(vcl[rs[0].start..rs[0].end]) + CommentOut(vcl, rs[1..], from, rs[0].end)
  }

  lemma ImportsFit(vcl: string, syn: Syntax)
    requires Regular(syn)
    ensures Fits(Imports(vcl, syn), |vcl|)
  {
    hide HiddenAt, Live;
    LiveFits(vcl, syn.imports(vcl), |vcl|);
  }

  function WithoutLateImports(vcl: string, syn: Syntax, from: nat): string
    requires Regular(syn)
  {
    ImportsFit(vcl, syn);
    CommentOut(vcl, Imports(vcl, syn), from, 0)
  }

  /** Everything before `from` is left as it is. */
  lemma {:induction false} CommentOutKeepsPrefix(vcl: string, rs: seq<Range>, from: nat, prev: nat)
    requires Fits(rs, |vcl|) && prev <= |vcl| && (rs != [] ==> prev <= rs[0].start)
    requires prev <= from <= |vcl|
    ensures var r := CommentOut(vcl, rs, from, prev); |r| >= from - prev && r[..from - prev] == vcl[prev..from]
    decreases rs
  {
    hide Commented, Fits;
    if rs == [] {
      assert vcl[prev..][..from - prev] == vcl[prev..from];
    } else {
      FitsTail(rs, |vcl|);
      StartsInOrder(rs, |vcl|, prev);
      if rs[0].start < from {
        CommentOutKeepsPrefix(vcl, rs[1..], from, prev);
      } else {
        var at := rs[0].start;
        var rest := Commented(vcl[at..rs[0].end]) + CommentOut(vcl, rs[1..], from, rs[0].end);
        ConcatAssociates(vcl[prev..at], Commented(vcl[at..rs[0].end]), CommentOut(vcl, rs[1..], from, rs[0].end));
        PrefixOfSlice(vcl, prev, from, at, rest);
      }
    }
  }

  lemma PrefixOfSlice(vcl: string, prev: nat, from: nat, at: nat, rest: string)
    requires prev <= from <= at <= |vcl|
    ensures var r := vcl[prev..at] + rest; |r| >= from - prev && r[..from - prev] == vcl[prev..from]
  {
    var r := vcl[prev..at] + rest;
    forall i | 0 <= i < from - prev ensures r[..from - prev][i] == vcl[prev..from][i] {
      var j := prev + i;
      assert r[i] == vcl[prev..at][i] == vcl[j];
    }
  }

  lemma StartsInOrder(rs: seq<Range>, n: nat, prev: nat)
    requires Fits(rs, n) && rs != [] && prev <= rs[0].start
    ensures rs[0].start < rs[0].end <= n
    ensures |rs| > 1 ==> rs[0].end <= rs[1].start && prev <= rs[1..][0].start
  {}

  /** Matches that start early are left alone: with no late one, nothing changes at all. */
  lemma {:induction false} NothingLateNothingChanged(vcl: string, rs: seq<Range>, from: nat, prev: nat)
    requires Fits(rs, |vcl|) && prev <= |vcl| && (rs != [] ==> prev <= rs[0].start)
    requires forall r | r in rs :: r.start < from
    ensures CommentOut(vcl, rs, from, prev) == vcl[prev..]
    decreases rs
  {
    if rs != [] {
      FitsTail(rs, |vcl|);
      StartsInOrder(rs, |vcl|, prev);
      assert rs[0] in rs && forall r | r in rs[1..] :: r in rs;
      hide Fits;
      NothingLateNothingChanged(vcl, rs[1..], from, prev);
    }
  }

  // ---------------------------------------------------------------------------
  // Injection
  // ---------------------------------------------------------------------------

  const BEGIN_NOTE := " Begin k8s-httpcache connection draining."
  const END_NOTE := " End k8s-httpcache connection draining."
  const BEGIN := "\n" + ("//" + (BEGIN_NOTE + "\n"))
  const END := "//" + (END_NOTE + "\n")

  const IMPORT_STD := BEGIN + ("import std;\n" + END)

  function BackendBlock(name: string): string {
    BEGIN + ("backend " + (name + (" " + ("{" + "\n  .host = " + ("\"" + ("127.0.0.1" + "\"")
    + (";\n  .port = " + ("\"" + ("9" + "\"") + (";\n}\n" + END))))))))
  }

  function DeliverSub(name: string): string {
    BEGIN + ("sub vcl_deliver " + ("{" + "\n  if (!std.healthy(" + (name + (")) " + ("{" + ("\n    set resp" + ".http.Connection = ")
    + ("\"" + ("close" + "\"") + (";\n  }\n}\n" + END)))))))
  }

  function Splice(t: string, at: nat, block: string): string {
    if at <= |t| then t[..at] + block + t[at..] else t + block
  }

  predicate StartsBefore(rs: seq<Range>, at: nat) {
    exists r | r in rs :: r.start < at
  }

  /** The drain sub goes before the user's first vcl_deliver, the drain backend after the
      user's first backend. */
  function InjectPrepended(vcl: string, name: string, firstEnd: nat, deliver: nat, syn: Syntax): string
    requires Regular(syn)
  {
    var c := WithoutLateImports(vcl, syn, deliver);
    var out := Splice(Splice(c, deliver, DeliverSub(name)), firstEnd, BackendBlock(name));
    if StartsBefore(Imports(vcl, syn), deliver) then out
    else
      var v := VersionEnd(c, syn);
      Splice(out, if v > deliver then 0 else v, IMPORT_STD)
  }

  function FirstFrom(rs: seq<Range>, at: nat): (r: Option<Range>)
    ensures r.Some? ==> r.value in rs && r.value.start >= at
    ensures r.None? ==> forall q | q in rs :: q.start < at
  {
    if rs == [] then None
    else if rs[0].start >= at then Some(rs[0])
    else FirstFrom(rs[1..], at)
  }

  /** Without a backend: behind the user's first import after the version line, or with an
      import of our own behind the version line. */
  function InjectBare(vcl: string, name: string, syn: Syntax): string
    requires Regular(syn)
  {
    var v := VersionEnd(vcl, syn);
    var r := FirstFrom(Imports(vcl, syn), v);
    var drain := BackendBlock(name) + DeliverSub(name);
    if r.Some? then Splice(WithoutLateImports(vcl, syn, r.value.end), r.value.end, drain)
    else Splice(Splice(vcl, v, IMPORT_STD), v + |IMPORT_STD|, drain)
  }

  /** Both blocks go after the last backend, if there is one. */
  function InjectLegacy(vcl: string, name: string, end: nat, syn: Syntax): string
    requires Regular(syn)
  {
    var c := WithoutLateImports(vcl, syn, end);
    var drain := BackendBlock(name) + DeliverSub(name);
    if end == 0 then InjectBare(vcl, name, syn)
    else if StartsBefore(Imports(vcl, syn), end) then Splice(c, end, drain)
    else Splice(Splice(c, VersionEnd(vcl, syn), IMPORT_STD), end + |IMPORT_STD|, drain)
  }

  lemma BackendsFit(vcl: string, syn: Syntax)
    requires Regular(syn)
    ensures Fits(Backends(vcl, syn), |vcl|)
  {
    hide HiddenAt, Live;
    LiveFits(vcl, syn.backends(vcl), |vcl|);
  }

  lemma DeliverIsInside(vcl: string, syn: Syntax)
    requires Regular(syn)
    ensures DeliverStart(vcl, syn).Some? ==> DeliverStart(vcl, syn).value < |vcl|
  {
    hide HiddenAt, Live;
    LiveFits(vcl, syn.delivers(vcl), |vcl|);
  }

  function Ends(vcl: string, syn: Syntax): seq<nat>
    requires Regular(syn)
  {
    BackendsFit(vcl, syn);
    EndsOf(vcl, Backends(vcl, syn))
  }

  lemma BackendEnds(vcl: string, syn: Syntax)
    requires Regular(syn) && Backends(vcl, syn) != []
    ensures var ends := Ends(vcl, syn);
      ends != [] && 0 < ends[0] <= Largest(ends) <= |vcl| && Largest(ends) in ends
    ensures DeliverStart(vcl, syn).Some? ==> DeliverStart(vcl, syn).value < |vcl|
  {
    hide BlockEnd, Regular, Backends, EndsOf, DeliverStart, Largest;
    BackendsFit(vcl, syn);
    DeliverIsInside(vcl, syn);
    var rs, ends := Backends(vcl, syn), Ends(vcl, syn);
    EndsAreWithin(vcl, rs);
    hide Fits;
    LargestIs(ends);
    assert ends[0] in ends;
  }

  lemma BlockEndIsPast(vcl: string, open: nat)
    requires open < |vcl|
    ensures open < BlockEnd(vcl, open) <= |vcl|
  {}

  function InjectDrain(vcl: string, name: string, syn: Syntax): (string, bool)
    requires Regular(syn)
  {
    var ends := Ends(vcl, syn);
    var last := Largest(ends);
    var deliver := DeliverStart(vcl, syn);
    if deliver.Some? && deliver.value < last then
      if ends != [] && ends[0] <= deliver.value then (InjectPrepended(vcl, name, ends[0], deliver.value, syn), false)
      else (InjectLegacy(vcl, name, last, syn), true)
    else (InjectLegacy(vcl, name, last, syn), false)
  }

  // ---------------------------------------------------------------------------
  // What injection amounts to
  // ---------------------------------------------------------------------------

  /** Offsets into the user's text: where the backend and the sub go, and whether and where
      an import is added. */
  datatype Plan = Plan(addImport: bool, version: nat, backend: nat, sub: nat)

  /** The user's first vcl_deliver comes before the last backend ends, but not before the
      first one does. */
  predicate Early(vcl: string, syn: Syntax)
    requires Regular(syn) && Backends(vcl, syn) != []
  {
    BackendEnds(vcl, syn);
    var ends, deliver := Ends(vcl, syn), DeliverStart(vcl, syn);
    deliver.Some? && ends[0] <= deliver.value < Largest(ends)
  }

  function DrainPlan(vcl: string, syn: Syntax): Plan
    requires Regular(syn) && Backends(vcl, syn) != []
  {
    BackendEnds(vcl, syn);
    var ends := Ends(vcl, syn);
    var sub := if Early(vcl, syn) then DeliverStart(vcl, syn).value else Largest(ends);
    var add := !StartsBefore(Imports(vcl, syn), sub);
    var seen := VersionEnd(if Early(vcl, syn) then WithoutLateImports(vcl, syn, sub) else vcl, syn);
    Plan(add, if !add || (Early(vcl, syn) && seen > sub) then 0 else seen,
         if Early(vcl, syn) then ends[0] else sub, sub)
  }

  /** If an import is added, the version line it follows ends no later than the offset at
      which the drain backend goes. */
  predicate VersionInPlace(vcl: string, syn: Syntax)
    requires Regular(syn) && Backends(vcl, syn) != []
  {
    DrainPlan(vcl, syn).version <= DrainPlan(vcl, syn).backend
  }

  /** The four stretches of `c` between the offsets of the plan, with the blocks between them. */
  function Injected(c: string, name: string, p: Plan): string
    requires p.version <= p.backend <= p.sub <= |c|
  {
    c[..p.version] + (if p.addImport then IMPORT_STD else "")
    + c[p.version..p.backend] + BackendBlock(name)
    + c[p.backend..p.sub] + DeliverSub(name)
    + c[p.sub..]
  }

  lemma PlanIsInside(vcl: string, syn: Syntax)
    requires Regular(syn) && Backends(vcl, syn) != []
    ensures var p := DrainPlan(vcl, syn);
      && 0 < p.backend <= p.sub <= |vcl| && (!p.addImport ==> p.version == 0)
      && p.backend in Ends(vcl, syn)
  {
    hide Regular, Ends, Largest, DeliverStart, VersionEnd, WithoutLateImports, Imports, StartsBefore;
    BackendEnds(vcl, syn);
  }

  /**
   * Injection preserves the program. The output is the user's text with only late imports
   * commented out, cut at the plan's offsets, and nothing but the injected blocks between the
   * stretches; up to the drain sub the user's text is untouched.
   */
  lemma DrainPreservesProgram(vcl: string, name: string, syn: Syntax)
    requires Regular(syn) && Backends(vcl, syn) != [] && VersionInPlace(vcl, syn)
    ensures var p := DrainPlan(vcl, syn);
      var c := WithoutLateImports(vcl, syn, p.sub);
      && p.version <= p.backend <= p.sub <= |vcl| && p.sub <= |c| && c[..p.sub] == vcl[..p.sub]
      && InjectDrain(vcl, name, syn).0 == Injected(c, name, p)
  {
    hide VersionEnd, Imports, Ends, Largest, StartsBefore, WithoutLateImports, DeliverStart, Regular,
         BackendBlock, DeliverSub, Splice;
    BackendEnds(vcl, syn);
    PlanIsInside(vcl, syn);
    var p := DrainPlan(vcl, syn);
    KeepsPrefix(vcl, syn, p.sub);
    var c := WithoutLateImports(vcl, syn, p.sub);
    if Early(vcl, syn) {
      ThreeSplices(c, p.version, IMPORT_STD, p.backend, BackendBlock(name), p.sub, DeliverSub(name), p.addImport);
    } else {
      TwoSplices(c, p.version, IMPORT_STD, p.backend, BackendBlock(name), DeliverSub(name), p.addImport);
    }
  }

  lemma KeepsPrefix(vcl: string, syn: Syntax, from: nat)
    requires Regular(syn) && from <= |vcl|
    ensures var c := WithoutLateImports(vcl, syn, from); |c| >= from && c[..from] == vcl[..from]
  {
    hide Regular, Imports, CommentOut, Fits;
    ImportsFit(vcl, syn);
    var rs := Imports(vcl, syn);
    CommentOutKeepsPrefix(vcl, rs, from, 0);
    assert vcl[0..from] == vcl[..from];
  }

  lemma TwoSplices(c: string, v: nat, i: string, b: nat, x: string, y: string, add: bool)
    requires v <= b <= |c|
    ensures (if add then Splice(Splice(c, v, i), b + |i|, x + y) else Splice(c, b, x + y))
            == c[..v] + (if add then i else "") + c[v..b] + x + c[b..b] + y + c[b..]
  {
    assert c[b..b] == "";
    if add {
      var t := Splice(c, v, i);
      assert t[..b + |i|] == c[..v] + i + c[v..b];
      assert t[b + |i|..] == c[b..];
    } else {
      assert c[..b] == c[..v] + "" + c[v..b];
    }
  }

  lemma SpliceBetween(a: string, b: string, x: string)
    ensures Splice(a + b, |a|, x) == a + x + b
  {
    assert (a + b)[..|a|] == a && (a + b)[|a|..] == b;
  }

  /** Splicing from the highest offset down puts three blocks between the four stretches. */
  lemma SpliceStretches(e: string, f: string, g: string, h: string, i: string, x: string, y: string)
    ensures var out := Splice(Splice(e + f + g + h, |e| + |f| + |g|, y), |e| + |f|, x);
            && out == e + "" + f + x + g + y + h
            && Splice(out, |e|, i) == e + i + f + x + g + y + h
  {
    hide Splice;
    var tail := g + y + h;
    SpliceBetween(e + f + g, h, y);
    ConcatAssociates(e + f, g, y);
    ConcatAssociates(e + f, g + y, h);
    SpliceBetween(e + f, tail, x);
    ConcatAssociates(e, f, x);
    ConcatAssociates(e, f + x, tail);
    SpliceBetween(e, f + x + tail, i);
    ConcatAssociates(e + i, f, x);
    ConcatAssociates(e + i, f + x, tail);
    ConcatAssociates(e + i + f + x, g, y);
    ConcatAssociates(e + i + f + x, g + y, h);
    ConcatAssociates(e + f + x, g, y);
    ConcatAssociates(e + f + x, g + y, h);
    assert e + "" == e;
  }

  lemma ThreeSplices(c: string, v: nat, i: string, b: nat, x: string, d: nat, y: string, add: bool)
    requires v <= b <= d <= |c|
    ensures var out := Splice(Splice(c, d, y), b, x);
            (if add then Splice(out, v, i) else out)
            == c[..v] + (if add then i else "") + c[v..b] + x + c[b..d] + y + c[d..]
  {
    hide Splice;
    assert c == c[..v] + c[v..b] + c[b..d] + c[d..];
    SpliceStretches(c[..v], c[v..b], c[b..d], c[d..], i, x, y);
  }

  /**
   * Placement. The drain backend directly follows one of the user's backends and precedes
   * the drain sub; an import of the user or the injected one precedes the sub; unless the
   * warning is raised, the sub precedes the user's first vcl_deliver; and the warning is
   * raised exactly when that vcl_deliver starts before the first backend ends.
   */
  lemma DrainPlacement(vcl: string, name: string, syn: Syntax)
    requires Regular(syn) && Backends(vcl, syn) != []
    ensures var p := DrainPlan(vcl, syn);
      var (ends, deliver, warn) := (Ends(vcl, syn), DeliverStart(vcl, syn), InjectDrain(vcl, name, syn).1);
      && p.backend in ends && p.backend <= p.sub
      && (p.addImport <==> forall r | r in Imports(vcl, syn) :: r.start >= p.sub)
      && (warn <==> deliver.Some? && ends != [] && deliver.value < ends[0])
      && (!warn && deliver.Some? ==> p.sub <= deliver.value)
  {
    hide VersionEnd, Imports, Ends, Largest, DeliverStart, Regular, InjectPrepended, InjectLegacy, WithoutLateImports;
    BackendEnds(vcl, syn);
    PlanIsInside(vcl, syn);
  }

  /**
   * Without a backend, the drain blocks follow the user's first import behind the version
   * line, later imports being commented out; if there is none, they follow the version line
   * with an import of their own. Nothing else changes and no warning is raised.
   */
  lemma DrainWithoutBackend(vcl: string, name: string, syn: Syntax)
    requires Regular(syn) && Backends(vcl, syn) == []
    ensures var v := VersionEnd(vcl, syn);
      var (out, warn) := InjectDrain(vcl, name, syn);
      var drain := BackendBlock(name) + DeliverSub(name);
      && !warn && v <= |vcl|
      && match FirstFrom(Imports(vcl, syn), v)
         case None => out == vcl[..v] + IMPORT_STD + drain + vcl[v..]
         case Some(r) =>
           var c := WithoutLateImports(vcl, syn, r.end);
           && r.end <= |c| && r.end <= |vcl| && c[..r.end] == vcl[..r.end]
           && out == c[..r.end] + drain + c[r.end..]
  {
    hide BackendBlock, DeliverSub, Imports, VersionEnd, WithoutLateImports, DeliverStart, Regular, FirstFrom;
    BackendsFit(vcl, syn);
    NoBackendNoEnd(vcl, syn);
    ImportsFit(vcl, syn);
    VersionIsInside(vcl, syn);
    var v := VersionEnd(vcl, syn);
    match FirstFrom(Imports(vcl, syn), v)
    case Some(r) => KeepsPrefix(vcl, syn, r.end);
    case None =>
      var t := Splice(vcl, v, IMPORT_STD);
      assert t[..v + |IMPORT_STD|] == vcl[..v] + IMPORT_STD && t[v + |IMPORT_STD|..] == vcl[v..];
  }

  lemma NoBackendNoEnd(vcl: string, syn: Syntax)
    requires Regular(syn) && Backends(vcl, syn) == []
    ensures Ends(vcl, syn) == [] && Largest(Ends(vcl, syn)) == 0
  {
    hide Regular, Backends;
  }

  lemma VersionIsInside(vcl: string, syn: Syntax)
    requires Regular(syn)
    ensures VersionEnd(vcl, syn) <= |vcl|
  {
    hide HiddenAt, Live;
    LiveFits(vcl, syn.versions(vcl), |vcl|);
  }
}
