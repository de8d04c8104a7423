/** What drain injection does to the lexical structure of the program, and where it fails. */
module DrainStructure {
  import opened Basics
  import opened VclLexer
  import opened VclBlocks
  import opened DrainInjection

  // ---------------------------------------------------------------------------
  // The injected blocks are code, and close what they open
  // ---------------------------------------------------------------------------

  /** Met in code, `s` is passed token by token and left in code, whatever follows. */
  ghost predicate Passes(s: string) {
    forall rest :: Reaches(s + rest, Normal, |s|, Normal)
  }

  lemma PassesJoin(a: string, b: string)
    requires Passes(a) && Passes(b)
    ensures Passes(a + b)
  {
    hide Reaches;
    forall rest ensures Reaches(a + b + rest, Normal, |a + b|, Normal) {
      ConcatAssociates(a, b, rest);
      var t := a + (b + rest);
      assert t[|a|..] == b + rest;
      ReachesOn(t, Normal, |a|, Normal, |b|, Normal);
    }
  }

  lemma PlainPasses(s: string)
    requires Plain(s)
    ensures Passes(s)
  {
    hide Reaches, Plain;
    forall rest ensures Reaches(s + rest, Normal, |s|, Normal) {
      PlainReaches(s, rest);
    }
  }

  lemma BracePasses(s: string)
    requires s != "" && Plain(s)
    ensures Passes("{" + s)
  {
    forall rest ensures Reaches("{" + s + rest, Normal, |"{" + s|, Normal) {
      var t := "{" + s + rest;
      assert s[0] in s && t[1] == s[0];
      ReachesOnce(t, Normal);
      assert t[1..] == s + rest;
      PlainReaches(s, rest);
      hide Reaches;
      ReachesOn(t, Normal, 1, Normal, |s|, Normal);
    }
  }

  lemma CommentPasses(note: string)
    requires '\n' !in note
    ensures Passes("//" + (note + "\n"))
  {
    hide Reaches, Advance;
    var s := "//" + (note + "\n");
    forall rest ensures Reaches(s + rest, Normal, |s|, Normal) {
      AdvanceOverLine(false, note, rest);
      AdvanceReaches(s + rest);
    }
  }

  lemma QuotedPasses(body: string)
    requires '"' !in body
    ensures Passes("\"" + (body + "\""))
  {
    hide Reaches, Advance;
    var s := "\"" + (body + "\"");
    forall rest ensures Reaches(s + rest, Normal, |s|, Normal) {
      AdvanceOverString(body, rest);
      AdvanceReaches(s + rest);
    }
  }

  lemma NotesAreLines()
    ensures '\n' !in BEGIN_NOTE && '\n' !in END_NOTE
  {}

  lemma MovedNoteIsLine()
    ensures '\n' !in MOVED_NOTE
  {
    var a, b := " Commented out by k8s-httpcache;", " moved to the top of the VCL.";
    assert '\n' !in a && '\n' !in b;
  }

  lemma MovedPasses()
    ensures Passes(MOVED)
  {
    MovedNoteIsLine();
    hide Passes;
    CommentPasses(MOVED_NOTE);
  }

  lemma BeginAndEndPass()
    ensures Passes(BEGIN) && Passes(END)
  {
    NotesAreLines();
    PlainPasses("\n");
    hide Passes;
    CommentPasses(BEGIN_NOTE);
    CommentPasses(END_NOTE);
    PassesJoin("\n", "//" + (BEGIN_NOTE + "\n"));
  }

  lemma ImportPasses()
    ensures Passes(IMPORT_STD)
  {
    BeginAndEndPass();
    PlainPasses("import std;\n");
    hide Passes;
    PassesJoin("import std;\n", END);
    PassesJoin(BEGIN, "import std;\n" + END);
  }

  lemma BackendParts()
    ensures Passes("backend ") && Passes(" ") && Passes("{" + "\n  .host = ") && Passes("\"" + ("127.0.0.1" + "\""))
  {
    hide Passes;
    PlainPasses("backend ");
    PlainPasses(" ");
    BracePasses("\n  .host = ");
    QuotedPasses("127.0.0.1");
  }

  lemma BackendEndParts()
    ensures Passes(";\n  .port = ") && Passes("\"" + ("9" + "\"")) && Passes(";\n}\n")
  {
    hide Passes;
    PlainPasses(";\n  .port = ");
    QuotedPasses("9");
    PlainPasses(";\n}\n");
  }

  lemma BackendPasses(name: string)
    requires Plain(name)
    ensures Passes(BackendBlock(name))
  {
    hide Passes, Plain;
    BeginAndEndPass();
    BackendParts();
    BackendEndParts();
    PlainPasses(name);
    var s1 := ";\n}\n" + END;
    PassesJoin(";\n}\n", END);
    var s2 := "\"" + ("9" + "\"") + s1;
    PassesJoin("\"" + ("9" + "\""), s1);
    var s3 := ";\n  .port = " + s2;
    PassesJoin(";\n  .port = ", s2);
    var s4 := "\"" + ("127.0.0.1" + "\"") + s3;
    PassesJoin("\"" + ("127.0.0.1" + "\""), s3);
    var s5 := "{" + "\n  .host = " + s4;
    PassesJoin("{" + "\n  .host = ", s4);
    PassesJoin(" ", s5);
    PassesJoin(name, " " + s5);
    PassesJoin("backend ", name + (" " + s5));
    PassesJoin(BEGIN, "backend " + (name + (" " + s5)));
  }

  lemma SubPasses(name: string)
    requires Plain(name)
    ensures Passes(DeliverSub(name))
  {
    hide Passes, Plain, SubBody;
    BeginAndEndPass();
    var s4 := name + (")) " + SubBody());
    SubBodyPasses();
    SubHeadPasses();
    PlainPasses(name);
    PassesJoin(")) ", SubBody());
    PassesJoin(name, ")) " + SubBody());
    PassesJoin("{" + "\n  if (!std.healthy(", s4);
    PassesJoin("sub vcl_deliver ", "{" + "\n  if (!std.healthy(" + s4);
    PassesJoin(BEGIN, "sub vcl_deliver " + ("{" + "\n  if (!std.healthy(" + s4));
    SubIs(name);
  }

  lemma SubIs(name: string)
    ensures DeliverSub(name) ==
      BEGIN + ("sub vcl_deliver " + ("{" + "\n  if (!std.healthy(" + (name + (")) " + SubBody()))))
  {}

  function SubBody(): string {
    "{" + ("\n    set resp" + ".http.Connection = ") + ("\"" + ("close" + "\"") + (";\n  }\n}\n" + END))
  }

  lemma SubHeadPasses()
    ensures Passes("sub vcl_deliver ") && Passes("{" + "\n  if (!std.healthy(") && Passes(")) ")
  {
    PlainPasses("sub vcl_deliver ");
    BracePasses("\n  if (!std.healthy(");
    PlainPasses(")) ");
  }

  lemma PlainJoin(a: string, b: string)
    requires Plain(a) && Plain(b)
    ensures Plain(a + b)
  {}

  lemma SettingIsPlain()
    ensures Plain("\n    set resp" + ".http.Connection = ")
  {
    assert Plain("\n    set resp");
    assert Plain(".http.Connection = ");
    hide Plain;
    PlainJoin("\n    set resp", ".http.Connection = ");
  }

  lemma SubBodyParts()
    ensures Passes("{" + ("\n    set resp" + ".http.Connection = "))
    ensures Passes("\"" + ("close" + "\"")) && Passes(";\n  }\n}\n")
  {
    SettingIsPlain();
    PlainPasses(";\n  }\n}\n");
    hide Passes, Plain;
    BracePasses("\n    set resp" + ".http.Connection = ");
    QuotedPasses("close");
  }

  lemma SubBodyPasses()
    ensures Passes(SubBody())
  {
    hide Passes;
    BeginAndEndPass();
    SubBodyParts();
    var s1 := ";\n  }\n}\n" + END;
    PassesJoin(";\n  }\n}\n", END);
    PassesJoin("\"" + ("close" + "\""), s1);
    PassesJoin("{" + ("\n    set resp" + ".http.Connection = "), "\"" + ("close" + "\"") + s1);
  }

  // ---------------------------------------------------------------------------
  // Splicing such a block into code
  // ---------------------------------------------------------------------------

  /** The text before the block and the text behind it scan as they did. */
  lemma SpliceKeepsScan(t: string, k: nat, block: string, n: nat)
    requires InCode(t, k) && Passes(block)
    ensures var out := Splice(t, k, block);
      && (n <= k ==> Scan(out, Normal, n) == Scan(t, Normal, n))
      && (n >= k ==> Scan(out, Normal, n + |block|) == Scan(t, Normal, n))
      && Reaches(out, Normal, k, Normal) && Reaches(out, Normal, k + |block|, Normal)
  {
    hide Reaches, Scan;
    var out := Splice(t, k, block);
    assert out[..k] == t[..k] && out[k..] == block + t[k..];
    ReachesSame(t, out, Normal, k, Normal, if n <= k then n else 0);
    assert (block + t[k..])[|block|..] == t[k..] && out[k + |block|..] == t[k..];
    ReachesOn(out, Normal, k, Normal, |block|, Normal);
    if n >= k {
      ReachesScan(out, Normal, k + |block|, Normal, n + |block|);
      ReachesScan(t, Normal, k, Normal, n);
    }
  }

  /** Positions in code before the splice stay in code where they are. */
  lemma SpliceKeepsCode(t: string, k: nat, block: string, j: nat)
    requires InCode(t, j) && j <= k <= |t|
    ensures InCode(Splice(t, k, block), j)
  {
    hide Reaches, Scan;
    var out := Splice(t, k, block);
    assert out[..j] == t[..k][..j] == t[..j];
    assert j > 0 ==> out[j - 1] == t[j - 1];
    ReachesSame(t, out, Normal, j, Normal, 0);
  }

  /** How far a byte of the user's text at `n` moves; at an insertion point, to behind the block. */
  function Moved(p: Plan, name: string, n: nat): nat {
    n + (if p.addImport && n >= p.version then |IMPORT_STD| else 0)
      + (if n >= p.backend then |BackendBlock(name)| else 0)
      + (if n >= p.sub then |DeliverSub(name)| else 0)
  }

  lemma InjectedIsSplices(c: string, name: string, p: Plan)
    requires p.version <= p.backend <= p.sub <= |c|
    ensures Injected(c, name, p) ==
      var out := Splice(Splice(c, p.sub, DeliverSub(name)), p.backend, BackendBlock(name));
      if p.addImport then Splice(out, p.version, IMPORT_STD) else out
  {
    hide DeliverSub, BackendBlock, Splice;
    ThreeSplices(c, p.version, IMPORT_STD, p.backend, BackendBlock(name), p.sub, DeliverSub(name), p.addImport);
  }

  /**
   * The structure of the program survives. If the offsets of the plan are in code, the
   * injected blocks are code, and every offset of the user's text is scanned in the output
   * as it was before: code stays code, comments stay comments, strings stay strings.
   */
  lemma InjectionKeepsStructure(c: string, name: string, p: Plan, n: nat)
    requires p.version <= p.backend <= p.sub <= |c| && Plain(name)
    requires InCode(c, p.backend) && InCode(c, p.sub) && (p.addImport ==> InCode(c, p.version))
    ensures Scan(Injected(c, name, p), Normal, Moved(p, name, n)) == Scan(c, Normal, n)
  {
    hide Scan, Reaches, InCode, Plain, Splice, BackendBlock, DeliverSub, Injected, Passes;
    InjectedIsSplices(c, name, p);
    SubPasses(name);
    BackendPasses(name);
    ImportPasses();
    var s1 := Splice(c, p.sub, DeliverSub(name));
    SpliceKeepsScan(c, p.sub, DeliverSub(name), n);
    SpliceKeepsCode(c, p.sub, DeliverSub(name), p.backend);
    var n1 := n + if n >= p.sub then |DeliverSub(name)| else 0;
    var s2 := Splice(s1, p.backend, BackendBlock(name));
    SpliceKeepsScan(s1, p.backend, BackendBlock(name), n1);
    var n2 := n1 + if n >= p.backend then |BackendBlock(name)| else 0;
    if p.addImport {
      SpliceKeepsCode(c, p.sub, DeliverSub(name), p.version);
      SpliceInside(c, p.sub, DeliverSub(name));
      SpliceKeepsCode(s1, p.backend, BackendBlock(name), p.version);
      SpliceKeepsScan(s2, p.version, IMPORT_STD, n2);
    }
  }

  lemma PrefixKeepsCode(t: string, u: string, k: nat, j: nat)
    requires InCode(t, j) && j <= k <= |t| && k <= |u| && t[..k] == u[..k]
    ensures InCode(u, j)
  {
    hide Reaches, Scan;
    assert t[..j] == t[..k][..j] && u[..j] == u[..k][..j];
    assert j > 0 ==> u[j - 1] == u[..k][j - 1] == t[..k][j - 1] == t[j - 1];
    ReachesSame(t, u, Normal, j, Normal, 0);
  }

  /** The same for the injection itself, on the user's text with late imports commented out.
      That the offsets of the plan are in code is what BackendEndIsCode and LineStartIsCode
      give for what the patterns match. */
  lemma DrainKeepsStructure(vcl: string, name: string, syn: Syntax, n: nat)
    requires Regular(syn) && Backends(vcl, syn) != [] && VersionInPlace(vcl, syn) && Plain(name)
    requires var p := DrainPlan(vcl, syn);
      InCode(vcl, p.backend) && InCode(vcl, p.sub) && (p.addImport ==> InCode(vcl, p.version))
    ensures var p := DrainPlan(vcl, syn);
      Scan(InjectDrain(vcl, name, syn).0, Normal, Moved(p, name, n))
      == Scan(WithoutLateImports(vcl, syn, p.sub), Normal, n)
  {
    hide Scan, InCode, Plain, Regular, Backends, VersionInPlace, DrainPlan, InjectDrain, WithoutLateImports, Injected,
         Moved;
    DrainPreservesProgram(vcl, name, syn);
    var p := DrainPlan(vcl, syn);
    var c := WithoutLateImports(vcl, syn, p.sub);
    PrefixKeepsCode(vcl, c, p.sub, p.backend);
    PrefixKeepsCode(vcl, c, p.sub, p.sub);
    if p.addImport {
      PrefixKeepsCode(vcl, c, p.sub, p.version);
    }
    InjectionKeepsStructure(c, name, p, n);
  }

  lemma SpliceInside(t: string, k: nat, block: string)
    ensures |Splice(t, k, block)| >= |t|
  {}

  // ---------------------------------------------------------------------------
  // Commenting out: when it takes the whole statement
  // ---------------------------------------------------------------------------

  predicate IsBlank(c: char) {
    c in " \t\n\r\U{c}"
  }

  /** No line break comes before the last non-blank byte. */
  predicate OneStatementLine(m: string) {
    forall i, j | 0 <= i < j < |m| && m[i] == '\n' :: IsBlank(m[j])
  }

  /** Byte `i` of the match, where it ends up in the commented form, is comment. */
  predicate IsComment(m: string, rest: string, i: nat) {
    Scan(Commented(m) + rest, Normal, |MOVED| + 3 + i) == Line
  }

  lemma {:induction false} TrimIs(m: string)
    ensures var t := TrimNewlines(m);
      && t <= m && forall i | |t| <= i < |m| :: m[i] == '\n'
  {
    if m != "" && m[|m| - 1] == '\n' {
      TrimIs(m[..|m| - 1]);
    }
  }

  lemma FirstNewline(t: string) returns (k: nat)
    requires '\n' in t
    ensures k < |t| && t[k] == '\n' && '\n' !in t[..k]
  {
    k := 0;
    while t[k] != '\n'
      invariant k < |t| && '\n' !in t[..k] && '\n' in t[k..]
      decreases |t| - k
    {
      assert t[..k + 1] == t[..k] + [t[k]];
      assert t[k..] == [t[k]] + t[k + 1..];
      k := k + 1;
    }
  }

  /** The commented form, behind its first line. */
  lemma CommentedScan(m: string, rest: string, n: nat)
    ensures Scan(Commented(m) + rest, Normal, |MOVED| + n)
            == Scan("//" + (" " + TrimNewlines(m) + "\n") + rest, Normal, n)
  {
    hide Reaches, Scan, TrimNewlines;
    MovedPasses();
    var s := "// " + TrimNewlines(m) + "\n";
    assert s == "//" + (" " + TrimNewlines(m) + "\n");
    ConcatAssociates(MOVED, s, rest);
    assert (MOVED + (s + rest))[|MOVED|..] == s + rest;
    ReachesScan(MOVED + (s + rest), Normal, |MOVED|, Normal, |MOVED| + n);
  }

  /** Up to the first line break everything is comment; behind it, blanks and then code. */
  lemma BeforeBreak(m: string, rest: string, k: nat, i: nat)
    requires k <= |TrimNewlines(m)| && '\n' !in TrimNewlines(m)[..k] && i < k
    requires k < |TrimNewlines(m)| ==> TrimNewlines(m)[k] == '\n'
    ensures IsComment(m, rest, i)
  {
    hide Scan, TrimNewlines, Commented;
    var t := TrimNewlines(m);
    CommentedScan(m, rest, 3 + i);
    var body, tail := " " + t[..k], if k < |t| then t[k + 1..] + "\n" + rest else rest;
    assert "//" + (" " + t + "\n") + rest == "//" + (body + "\n") + tail by {
      if k < |t| {
        assert t == t[..k] + "\n" + t[k + 1..];
      } else {
        assert t[..k] == t;
      }
    }
    ScanLineComment(false, body, tail, 3 + i);
  }

  lemma BehindBreak(m: string, rest: string, k: nat, j: nat)
    requires k < j < |TrimNewlines(m)| && '\n' !in TrimNewlines(m)[..k] && TrimNewlines(m)[k] == '\n'
    requires forall i | k < i < j :: IsBlank(TrimNewlines(m)[i])
    ensures !IsComment(m, rest, j)
  {
    hide Scan, TrimNewlines, Commented, Reaches;
    var t := TrimNewlines(m);
    CommentedScan(m, rest, 3 + j);
    var body, tail := " " + t[..k], t[k + 1..] + "\n" + rest;
    assert "//" + (" " + t + "\n") + rest == "//" + (body + "\n") + tail by {
      assert t == t[..k] + "\n" + t[k + 1..];
    }
    ScanLineComment(false, body, tail, 3 + j);
    var blanks, more := t[k + 1..j], t[j..] + "\n" + rest;
    assert tail == blanks + more;
    assert Plain(blanks);
    PlainReaches(blanks, more);
    ReachesScan(tail, Normal, |blanks|, Normal, |blanks|);
    ScanHere(tail[|blanks|..], Normal);
  }

  /**
   * Commenting out a match takes the whole statement if and only if no line break comes
   * before its last non-blank byte. The pattern allows any whitespace between `import` and
   * `std`; behind a line break there, what is left of the statement stays code.
   */
  lemma CommentedIsCommentIff(m: string, rest: string)
    ensures (forall i: nat | i < |m| && !IsBlank(m[i]) :: IsComment(m, rest, i)) <==> OneStatementLine(m)
  {
    hide IsComment, TrimNewlines, IsBlank;
    var t := TrimNewlines(m);
    TrimIs(m);
    BlankNewline();
    if '\n' !in t {
      forall i: nat | i < |m| && !IsBlank(m[i]) ensures IsComment(m, rest, i) {
        assert t[..|t|] == t;
        BeforeBreak(m, rest, |t|, i);
      }
    } else {
      var k := FirstNewline(t);
      forall i: nat | i < k ensures IsComment(m, rest, i) {
        BeforeBreak(m, rest, k, i);
      }
      if OneStatementLine(m) {
        forall i: nat | i < |m| && !IsBlank(m[i]) ensures IsComment(m, rest, i) {
          assert m[k] == '\n' && i != k;
        }
      } else {
        var j := FirstStatementByte(m, k);
        BehindBreak(m, rest, k, j);
      }
    }
  }

  lemma BlankNewline()
    ensures IsBlank('\n')
  {}

  /** The first non-blank byte behind the first line break. */
  lemma FirstStatementByte(m: string, k: nat) returns (j: nat)
    requires k < |m| && m[k] == '\n' && '\n' !in m[..k] && !OneStatementLine(m)
    ensures k < j < |m| && !IsBlank(m[j]) && (forall i | k < i < j :: IsBlank(m[i]))
    ensures j < |TrimNewlines(m)|
  {
    hide TrimNewlines;
    TrimIs(m);
    var a, b :| 0 <= a < b < |m| && m[a] == '\n' && !IsBlank(m[b]);
    assert m[..k] <= m && forall i | 0 <= i < k :: m[i] in m[..k];
    j := k + 1;
    while IsBlank(m[j])
      invariant k < j <= b && forall i | k < i < j :: IsBlank(m[i])
      decreases b - j
    {
      j := j + 1;
    }
  }

  /** A concrete one: the second line of this statement stays in force. */
  lemma SplitImportStaysInForce()
    ensures CommentOut("import\nstd;\n", [Range(0, 12)], 0, 0) == MOVED + ("// import\nstd;" + "\n")
    ensures !IsComment("import\nstd;\n", "", 7)
  {
    var m := "import\nstd;\n";
    assert m[..11] == "import\nstd;" && TrimNewlines(m[..11]) == m[..11];
    assert TrimNewlines(m) == "import\nstd;";
    assert m[0..12] == m && m[0..0] == "" && m[12..] == "";
    assert [Range(0, 12)][1..] == [];
    assert "// " + "import\nstd;" + "\n" == "// import\nstd;" + "\n";
    BehindBreak(m, "", 6, 7);
  }

  // ---------------------------------------------------------------------------
  // A version line behind the first backend
  // ---------------------------------------------------------------------------

  /** Without comment or string delimiters, nothing is hidden. */
  lemma {:induction false} NothingHidden(t: string, n: nat)
    requires forall c | c in t :: c !in "/\"#"
    ensures Scan(t, Normal, n) == Normal
    decreases t
  {
    if t != "" && n > 0 {
      ScanOnce(t, Normal, n);
      hide Scan;
      assert t[0] in t && (|t| > 1 ==> t[1] in t) && forall c | c in t[1..] :: c in t;
      NothingHidden(t[1..], n - 1);
    }
  }

  lemma LiveIsAll(t: string, rs: seq<Range>)
    requires forall c | c in t :: c !in "/\"#"
    ensures Live(t, rs) == rs
  {
    hide Scan;
    if rs != [] {
      NothingHidden(t, rs[0].start);
      LiveIsAll(t, rs[1..]);
    }
  }

  lemma NoImportsNoChange(vcl: string, syn: Syntax, from: nat)
    requires Regular(syn) && Imports(vcl, syn) == []
    ensures WithoutLateImports(vcl, syn, from) == vcl && !StartsBefore(Imports(vcl, syn), from)
  {
    hide Regular, Imports;
    assert vcl[0..] == vcl;
  }

  /** What the patterns find in a text whose one backend comes before the version line. */
  predicate LateVersion(t: string, syn: Syntax) {
    && |t| == 22 && t[11] == '}' && t[12] == '\n' && (forall c | c in t :: c !in "/\"#")
    && syn.imports(t) == [] && syn.delivers(t) == []
    && syn.backends(t) == [Range(0, 11)] && syn.versions(t) == [Range(13, 22)]
  }

  lemma BlockEndsAtOnce(t: string, open: nat)
    requires open + 2 < |t| && t[open + 1] == '}' && t[open + 2] == '\n'
    ensures BlockEnd(t, open) == open + 3
  {
    var rest := t[open + 2..];
    assert t[open + 1..] == "}" + rest;
    ClosesAtOnce(rest);
    hide CloseBrace;
    BlockEndIs(t, open);
  }

  lemma LateVersionFacts(t: string, syn: Syntax)
    requires Regular(syn) && LateVersion(t, syn)
    ensures |t| == 22 && Imports(t, syn) == [] && DeliverStart(t, syn) == None
    ensures Backends(t, syn) == [Range(0, 11)] && VersionEnd(t, syn) == 22
    ensures Ends(t, syn) == [13] && Largest([13]) == 13
  {
    hide HiddenAt, Live, Regular, BlockEnd, EndsOf, Largest, Fits;
    LiveIsAll(t, [Range(0, 11)]);
    LiveIsAll(t, [Range(13, 22)]);
    LiveIsAll(t, []);
    BlockEndsAtOnce(t, 10);
    OneEnd(t, 13);
  }

  lemma OneEnd(t: string, e: nat)
    requires |t| >= 11 && BlockEnd(t, 10) == e && e > 0
    ensures EndsOf(t, [Range(0, 11)]) == [e] && Largest([e]) == e
  {
    hide BlockEnd;
    assert [Range(0, 11)][1..] == [];
    assert [e][..0] == [];
  }

  /** Injection behind the last backend: the drain blocks cut the injected import in two. */
  lemma LateVersionCutsImport(t: string, name: string, syn: Syntax)
    requires Regular(syn) && LateVersion(t, syn)
    ensures Backends(t, syn) != [] && !VersionInPlace(t, syn)
    ensures InjectDrain(t, name, syn).0 ==
      var cut := |IMPORT_STD| - 9;
      t + IMPORT_STD[..cut] + (BackendBlock(name) + DeliverSub(name)) + IMPORT_STD[cut..]
  {
    hide Regular, Backends, Imports, VersionEnd, DeliverStart, Ends, Largest, WithoutLateImports, BackendBlock,
         DeliverSub, StartsBefore, Splice, LateVersion;
    LateVersionFacts(t, syn);
    NoImportsNoChange(t, syn, 13);
    LateSplices(t, BackendBlock(name) + DeliverSub(name));
  }

  lemma LateSplices(t: string, x: string)
    requires |t| == 22
    ensures |IMPORT_STD| >= 9
    ensures var cut := |IMPORT_STD| - 9;
      Splice(Splice(t, 22, IMPORT_STD), 13 + |IMPORT_STD|, x) == t + IMPORT_STD[..cut] + x + IMPORT_STD[cut..]
  {
    SpliceAtEnd(t, IMPORT_STD);
    CutBehind(t, IMPORT_STD, 13 + |IMPORT_STD|, x);
  }

  lemma SpliceAtEnd(t: string, i: string)
    ensures Splice(t, |t|, i) == t + i
  {
    assert t[..|t|] == t && t[|t|..] == "" && t + i + "" == t + i;
  }

  lemma CutBehind(t: string, i: string, at: nat, x: string)
    requires |t| <= at <= |t| + |i|
    ensures Splice(t + i, at, x) == t + i[..at - |t|] + x + i[at - |t|..]
  {
    assert (t + i)[..at] == t + i[..at - |t|];
    assert (t + i)[at..] == i[at - |t|..];
  }

  /** Such a text. */
  lemma LateVersionExample()
    ensures var t := "backend b {}\nvcl 4.1;\n";
      |t| == 22 && t[11] == '}' && t[12] == '\n' && (forall c | c in t :: c !in "/\"#")
      && t[..11] == "backend b {" && t[13..] == "vcl 4.1;\n"
  {}

  /** What the patterns find when a vcl_deliver and another backend follow as well. */
  predicate LateVersionAndSub(t: string, syn: Syntax) {
    && |t| == 54 && t[11] == '}' && t[12] == '\n' && t[52] == '}' && t[53] == '\n'
    && (forall c | c in t :: c !in "/\"#")
    && syn.imports(t) == [] && syn.delivers(t) == [Range(22, 39)]
    && syn.backends(t) == [Range(0, 11), Range(41, 52)] && syn.versions(t) == [Range(13, 22)]
  }

  lemma LateVersionAndSubFacts(t: string, syn: Syntax)
    requires Regular(syn) && LateVersionAndSub(t, syn)
    ensures |t| == 54 && Imports(t, syn) == [] && DeliverStart(t, syn) == Some(22) && VersionEnd(t, syn) == 22
    ensures Backends(t, syn) == [Range(0, 11), Range(41, 52)]
    ensures Ends(t, syn) == [13, 54] && Largest([13, 54]) == 54
  {
    hide HiddenAt, Live, Regular, BlockEnd, EndsOf, Largest, Fits;
    LiveIsAll(t, [Range(0, 11), Range(41, 52)]);
    LiveIsAll(t, [Range(13, 22)]);
    LiveIsAll(t, [Range(22, 39)]);
    LiveIsAll(t, []);
    BlockEndsAtOnce(t, 10);
    BlockEndsAtOnce(t, 51);
    TwoEnds(t, 13, 54);
  }

  lemma TwoEnds(t: string, d: nat, e: nat)
    requires |t| == 54 && BlockEnd(t, 10) == d && BlockEnd(t, 51) == e && 0 < d < e
    ensures EndsOf(t, [Range(0, 11), Range(41, 52)]) == [d, e] && Largest([d, e]) == e
  {
    hide BlockEnd;
    var rs := [Range(0, 11), Range(41, 52)];
    assert rs[1..] == [Range(41, 52)] && rs[1..][1..] == [];
    assert EndsOf(t, []) == [];
    assert EndsOf(t, [Range(41, 52)]) == [e];
    assert [d, e][..1] == [d] && [d][..0] == [];
    assert Largest([]) == 0 && Largest([d]) == d;
  }

  /** The import in the middle of the drain backend. */
  function CutInTwo(t: string, name: string): string
    requires |t| >= 22
  {
    BlockIsLong(name);
    var block := BackendBlock(name);
    t[..13] + block[..9] + IMPORT_STD + block[9..] + (t[13..22] + DeliverSub(name) + t[22..])
  }

  /** Injection before the user's vcl_deliver: the import cuts the drain backend in two. */
  lemma LateVersionCutsBackend(t: string, name: string, syn: Syntax)
    requires Regular(syn) && LateVersionAndSub(t, syn)
    ensures Backends(t, syn) != [] && !VersionInPlace(t, syn)
    ensures InjectDrain(t, name, syn).0 == CutInTwo(t, name)
  {
    hide Regular, Backends, Imports, VersionEnd, DeliverStart, Ends, Largest, WithoutLateImports, BackendBlock,
         DeliverSub, StartsBefore, Splice, LateVersionAndSub;
    LateVersionAndSubFacts(t, syn);
    NoImportsNoChange(t, syn, 22);
    PrependedWithoutImports(t, name, 13, 22, syn);
    hide InjectPrepended;
    BlockIsLong(name);
    SpliceFrom(t, 22, DeliverSub(name), 13);
    CutsBlock(t, Splice(t, 22, DeliverSub(name)), BackendBlock(name), 13, 22, IMPORT_STD);
  }

  lemma PrependedWithoutImports(t: string, name: string, firstEnd: nat, deliver: nat, syn: Syntax)
    requires Regular(syn) && Imports(t, syn) == [] && VersionEnd(t, syn) <= deliver
    ensures InjectPrepended(t, name, firstEnd, deliver, syn) ==
      Splice(Splice(Splice(t, deliver, DeliverSub(name)), firstEnd, BackendBlock(name)), VersionEnd(t, syn), IMPORT_STD)
  {
    hide Regular, Imports, VersionEnd, WithoutLateImports, BackendBlock, DeliverSub, StartsBefore, Splice;
    NoImportsNoChange(t, syn, deliver);
  }

  lemma BlockIsLong(name: string)
    ensures |BackendBlock(name)| > 9
  {}

  lemma SpliceFrom(t: string, k: nat, x: string, n: nat)
    requires n <= k <= |t|
    ensures var out := Splice(t, k, x); |out| >= n && out[..n] == t[..n] && out[n..] == t[n..k] + x + t[k..]
  {
    var out := Splice(t, k, x);
    assert out[..n] == t[..k][..n];
    assert out == t[..n] + (t[n..k] + x + t[k..]);
  }

  lemma CutsBlock(c: string, s: string, x: string, b: nat, v: nat, i: string)
    requires b <= |c| && b <= |s| && s[..b] == c[..b] && b < v < b + |x|
    ensures Splice(Splice(s, b, x), v, i) == c[..b] + x[..v - b] + i + x[v - b..] + s[b..]
  {
    var out := Splice(s, b, x);
    assert out[..v] == c[..b] + x[..v - b];
    assert out[v..] == x[v - b..] + s[b..];
  }

  lemma LateVersionAndSubExample()
    ensures var t := "backend b {}\nvcl 4.1;\n" + "sub vcl_deliver {}\n" + "backend c {}\n";
      && |t| == 54 && t[11] == '}' && t[12] == '\n' && t[52] == '}' && t[53] == '\n'
      && t[22..39] == "sub vcl_deliver {" && t[41..52] == "backend c {"
  {
    var a, b, c := "backend b {}\nvcl 4.1;\n", "sub vcl_deliver {}\n", "backend c {}\n";
    var t := a + b + c;
    assert t[22..39] == b[..17];
    assert t[41..52] == c[..11];
  }
}
