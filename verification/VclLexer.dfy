/** The lexical scanner of the drain injector: which offsets of a VCL text lie in a block
    comment or a long string, and where the brace that closes a block is. */
module VclLexer {
  import opened Basics

  datatype Mode = Normal | Block | Line | Quoted | Long

  /** Text at which a token match is literal, not structure. */
  predicate Hidden(m: Mode) {
    m.Block? || m.Long?
  }

  predicate Opens(t: string, a: char, b: char) {
    |t| >= 2 && t[0] == a && t[1] == b
  }

  // ---------------------------------------------------------------------------
  // The scan
  // ---------------------------------------------------------------------------

  /** One turn of the scanner: the mode behind it and how many bytes it passed. */
  function LexStep(t: string, m: Mode): (r: (Mode, nat))
    requires t != ""
    ensures 1 <= r.1 <= 2 && r.1 <= |t|
  {
    match m
    case Normal =>
      if Opens(t, '/', '*') then (Block, 2)
      else if Opens(t, '/', '/') then (Line, 2)
      else if t[0] == '#' then (Line, 1)
      else if Opens(t, '{', '"') then (Long, 2)
      else if t[0] == '"' then (Quoted, 1)
      else (Normal, 1)
    case Block => if Opens(t, '*', '/') then (Normal, 2) else (Block, 1)
    case Line => (if t[0] == '\n' then Normal else Line, 1)
    case Quoted => (if t[0] == '"' then Normal else Quoted, 1)
    case Long => if Opens(t, '"', '}') then (Normal, 2) else (Long, 1)
  }

  function Minus(n: nat, k: nat): nat {
    if n < k then 0 else n - k
  }

  /** The mode at offset `n` of `t`, entered in mode `m`. */
  function Scan(t: string, m: Mode, n: nat): Mode
    decreases |t|
  {
    if t == "" || n == 0 then m
    else
      var (m', k) := LexStep(t, m);
      Scan(t[k..], m', Minus(n, k))
  }

  predicate HiddenAt(vcl: string, pos: nat) {
    Hidden(Scan(vcl, Normal, pos))
  }

  /** One left-to-right pass answers every offset, each as a scan of its own would. */
  method InCommentOrLongStringAt(vcl: string, positions: seq<nat>) returns (answers: array<bool>)
    requires forall i, j | 0 <= i < j < |positions| :: positions[i] <= positions[j]
    ensures fresh(answers) && answers.Length == |positions|
    ensures forall k | 0 <= k < |positions| :: answers[k] == HiddenAt(vcl, positions[k])
  {
    hide LexStep, Scan;
    answers := new bool[|positions|];
    var next := 0;
    var state := Normal;
    var i := 0;
    assert vcl[0..] == vcl;
    while i < |vcl| && next < |positions|
      invariant 0 <= i <= |vcl| && 0 <= next <= |positions|
      invariant forall k | 0 <= k < next :: answers[k] == HiddenAt(vcl, positions[k])
      invariant forall k | next <= k < |positions| ::
                  Scan(vcl, Normal, positions[k]) == Scan(vcl[i..], state, Minus(positions[k], i))
      decreases |vcl| - i
    {
      while next < |positions| && positions[next] <= i
        invariant 0 <= next <= |positions|
        invariant forall k | 0 <= k < next :: answers[k] == HiddenAt(vcl, positions[k])
      {
        ScanHere(vcl[i..], state);
        answers[next] := state == Block || state == Long;
        next := next + 1;
      }
      var (state', k) := LexStep(vcl[i..], state);
      ScanUnfolds(vcl, i, state);
      ghost var rest := vcl[i + k..];
      forall j | next <= j < |positions|
        ensures Scan(vcl[i..], state, Minus(positions[j], i)) == Scan(rest, state', Minus(positions[j], i + k))
      {
        assert positions[next] <= positions[j];
        assert Minus(Minus(positions[j], i), k) == Minus(positions[j], i + k);
      }
      state := state';
      i := i + k;
    }
    while next < |positions|
      invariant 0 <= next <= |positions|
      invariant forall k | 0 <= k < next :: answers[k] == HiddenAt(vcl, positions[k])
    {
      assert i == |vcl|;
      ScanEnd(vcl[i..], state, Minus(positions[next], i));
      answers[next] := state == Block || state == Long;
      next := next + 1;
    }
  }

  lemma ScanHere(t: string, m: Mode)
    ensures Scan(t, m, 0) == m
  {}

  lemma ScanEnd(t: string, m: Mode, n: nat)
    requires t == ""
    ensures Scan(t, m, n) == m
  {}

  lemma ScanUnfolds(vcl: string, i: nat, m: Mode)
    requires i < |vcl|
    ensures var (m', k) := LexStep(vcl[i..], m);
      forall n: nat :: n > 0 ==> Scan(vcl[i..], m, n) == Scan(vcl[i + k..], m', Minus(n, k))
  {
    hide LexStep;
    var (m', k) := LexStep(vcl[i..], m);
    assert vcl[i..][k..] == vcl[i + k..];
  }

  // ---------------------------------------------------------------------------
  // Lexical structure
  // ---------------------------------------------------------------------------

  /** A lexical piece of VCL: a byte of code, a block comment, a line comment (introduced by
      # or by two slashes), a quoted string, or a long string. */
  datatype Piece =
    | Code(c: char)
    | BlockComment(body: string)
    | LineComment(hash: bool, body: string)
    | String(body: string)
    | LongString(body: string)

  function TextOf(p: Piece): (t: string)
    ensures t != ""
  {
    match p
    case Code(c) => [c]
    case BlockComment(b) => "/*" + (b + "*/")
    case LineComment(hash, b) => (if hash then "#" else "//") + (b + "\n")
    case String(b) => "\"" + (b + "\"")
    case LongString(b) => "{\"" + (b + "\"}")
  }

  function Text(ps: seq<Piece>): string {
    if ps == [] then "" else TextOf(ps[0]) + Text(ps[1..])
  }

  /** `close` occurs in `body + close` only at the end. */
  predicate EndsAtFirst(body: string, a: char, b: char) {
    var t := body + [a, b];
    forall k, k' | 0 <= k < |body| && k' == k + 1 :: !(t[k] == a && t[k'] == b)
  }

  /** A piece that says what it seems to say when `next` follows. */
  predicate WellFormed(p: Piece, next: string) {
    match p
    case Code(c) =>
      && c != '"' && c != '#'
      && !(c == '/' && next != "" && next[0] in "/*")
      && !(c == '{' && next != "" && next[0] == '"')
    case BlockComment(b) => EndsAtFirst(b, '*', '/')
    case LineComment(_, b) => '\n' !in b
    case String(b) => '"' !in b
    case LongString(b) => EndsAtFirst(b, '"', '}')
  }

  predicate AllWellFormed(ps: seq<Piece>, post: string) {
    ps != [] ==> WellFormed(ps[0], Text(ps[1..]) + post) && AllWellFormed(ps[1..], post)
  }

  lemma {:induction false} BlockBody(b: string, rest: string, n: nat)
    requires EndsAtFirst(b, '*', '/')
    ensures Scan(b + "*/" + rest, Block, n)
            == if n <= |b| then Block else Scan(rest, Normal, Minus(n, |b| + 2))
    decreases b
  {
    var t := b + "*/" + rest;
    if n > 0 {
      if b == "" {
        assert t[2..] == rest;
      } else {
        assert (b + "*/")[0] == t[0] && (b + "*/")[1] == t[1];
        assert t[1..] == b[1..] + "*/" + rest;
        Shorter(b, '*', '/');
        BlockBody(b[1..], rest, n - 1);
      }
    }
  }

  lemma {:induction false} LongBody(b: string, rest: string, n: nat)
    requires EndsAtFirst(b, '"', '}')
    ensures Scan(b + "\"}" + rest, Long, n)
            == if n <= |b| then Long else Scan(rest, Normal, Minus(n, |b| + 2))
    decreases b
  {
    var t := b + "\"}" + rest;
    if n > 0 {
      if b == "" {
        assert t[2..] == rest;
      } else {
        assert (b + "\"}")[0] == t[0] && (b + "\"}")[1] == t[1];
        assert t[1..] == b[1..] + "\"}" + rest;
        Shorter(b, '"', '}');
        LongBody(b[1..], rest, n - 1);
      }
    }
  }

  lemma Shorter(b: string, x: char, y: char)
    requires b != "" && EndsAtFirst(b, x, y)
    ensures EndsAtFirst(b[1..], x, y)
  {
    var t, u := b + [x, y], b[1..] + [x, y];
    assert u == t[1..];
    forall k, k' | 0 <= k < |b[1..]| && k' == k + 1 ensures !(u[k] == x && u[k'] == y) {
      var j, j' := k + 1, k' + 1;
      assert !(t[j] == x && t[j'] == y);
    }
  }

  lemma {:induction false} LineBody(b: string, rest: string, n: nat)
    requires '\n' !in b
    ensures Scan(b + "\n" + rest, Line, n) == if n <= |b| then Line else Scan(rest, Normal, n - |b| - 1)
    decreases b
  {
    var t := b + "\n" + rest;
    if n > 0 {
      if b == "" {
        assert t[1..] == rest;
      } else {
        assert t[1..] == b[1..] + "\n" + rest && b[0] in b;
        LineBody(b[1..], rest, n - 1);
      }
    }
  }

  lemma {:induction false} StringBody(b: string, rest: string, n: nat)
    requires '"' !in b
    ensures Scan(b + "\"" + rest, Quoted, n) == if n <= |b| then Quoted else Scan(rest, Normal, n - |b| - 1)
    decreases b
  {
    var t := b + "\"" + rest;
    if n > 0 {
      if b == "" {
        assert t[1..] == rest;
      } else {
        assert t[1..] == b[1..] + "\"" + rest && b[0] in b;
        StringBody(b[1..], rest, n - 1);
      }
    }
  }

  /** Strictly inside a block comment or a long string, its delimiters not split. */
  predicate Inside(p: Piece, n: nat) {
    (p.BlockComment? || p.LongString?) && 1 <= n <= |TextOf(p)| - 2
  }

  lemma ScanOnce(t: string, m: Mode, n: nat)
    requires t != "" && n > 0
    ensures Scan(t, m, n) == Scan(t[LexStep(t, m).1..], LexStep(t, m).0, Minus(n, LexStep(t, m).1))
  {
    hide LexStep;
  }

  lemma ScanBlockComment(b: string, rest: string, n: nat)
    requires EndsAtFirst(b, '*', '/') && n > 0
    ensures Scan("/*" + (b + "*/") + rest, Normal, n)
            == if n <= |b| + 2 then Block else Scan(rest, Normal, Minus(n, |b| + 4))
  {
    var t := "/*" + (b + "*/") + rest;
    assert t[2..] == b + "*/" + rest;
    ScanOnce(t, Normal, n);
    hide Scan;
    BlockBody(b, rest, Minus(n, 2));
  }

  lemma ScanLongString(b: string, rest: string, n: nat)
    requires EndsAtFirst(b, '"', '}') && n > 0
    ensures Scan("{\"" + (b + "\"}") + rest, Normal, n)
            == if n <= |b| + 2 then Long else Scan(rest, Normal, Minus(n, |b| + 4))
  {
    var t := "{\"" + (b + "\"}") + rest;
    assert t[2..] == b + "\"}" + rest;
    ScanOnce(t, Normal, n);
    hide Scan;
    LongBody(b, rest, Minus(n, 2));
  }

  lemma ScanLineComment(hash: bool, b: string, rest: string, n: nat)
    requires '\n' !in b && n > 0
    ensures var lead := if hash then "#" else "//";
            Scan(lead + (b + "\n") + rest, Normal, n)
            == if n <= |b| + |lead| then Line else Scan(rest, Normal, n - |b| - |lead| - 1)
  {
    var lead := if hash then "#" else "//";
    var t := lead + (b + "\n") + rest;
    assert t[|lead|..] == b + "\n" + rest;
    ScanOnce(t, Normal, n);
    hide Scan;
    LineBody(b, rest, Minus(n, |lead|));
  }

  lemma ScanString(b: string, rest: string, n: nat)
    requires '"' !in b && n > 0
    ensures Scan("\"" + (b + "\"") + rest, Normal, n)
            == if n <= |b| + 1 then Quoted else Scan(rest, Normal, n - |b| - 2)
  {
    var t := "\"" + (b + "\"") + rest;
    assert t[1..] == b + "\"" + rest;
    ScanOnce(t, Normal, n);
    hide Scan;
    StringBody(b, rest, n - 1);
  }

  lemma ScanCode(c: char, rest: string, n: nat)
    requires WellFormed(Code(c), rest) && n > 0
    ensures Scan([c] + rest, Normal, n) == Scan(rest, Normal, n - 1)
  {
    var t := [c] + rest;
    assert t[1..] == rest;
    ScanOnce(t, Normal, n);
  }

  /** Scanning a piece from code: it ends in code, and its inside is hidden just if it is a
      block comment or a long string. */
  lemma ScanPiece(p: Piece, rest: string, n: nat)
    requires WellFormed(p, rest)
    ensures n < |TextOf(p)| ==> (Hidden(Scan(TextOf(p) + rest, Normal, n)) <==> Inside(p, n))
    ensures n >= |TextOf(p)| ==> Scan(TextOf(p) + rest, Normal, n) == Scan(rest, Normal, n - |TextOf(p)|)
  {
    ScanHere(TextOf(p) + rest, Normal);
    ScanHere(rest, Normal);
    hide Scan, EndsAtFirst;
    if n > 0 {
      match p
      case Code(c) => ScanCode(c, rest, n);
      case BlockComment(b) => ScanBlockComment(b, rest, n);
      case LineComment(hash, b) => ScanLineComment(hash, b, rest, n);
      case String(b) => ScanString(b, rest, n);
      case LongString(b) => ScanLongString(b, rest, n);
    }
  }

  // ---------------------------------------------------------------------------
  // Searching for closing delimiters
  // ---------------------------------------------------------------------------

  /** Offset of the first `a` directly followed by `b`. */
  function IndexOfPair(t: string, a: char, b: char): (r: Option<nat>)
    ensures r.Some? ==> r.value + 2 <= |t|
  {
    if |t| < 2 then None
    else if Opens(t, a, b) then Some(0)
    else
      var r := IndexOfPair(t[1..], a, b);
      if r.None? then None else Some(r.value + 1)
  }

  function IndexOf(t: string, c: char): (r: Option<nat>)
    ensures r.Some? ==> r.value < |t|
  {
    if t == "" then None
    else if t[0] == c then Some(0)
    else
      var r := IndexOf(t[1..], c);
      if r.None? then None else Some(r.value + 1)
  }

  lemma {:induction false} PairIsFirst(body: string, a: char, b: char, rest: string)
    requires EndsAtFirst(body, a, b)
    ensures IndexOfPair(body + [a, b] + rest, a, b) == Some(|body|)
    decreases body
  {
    var t := body + [a, b] + rest;
    if body != "" {
      assert (body + [a, b])[0] == t[0] && (body + [a, b])[1] == t[1];
      assert t[1..] == body[1..] + [a, b] + rest;
      Shorter(body, a, b);
      PairIsFirst(body[1..], a, b, rest);
    }
  }

  lemma {:induction false} IndexIsFirst(body: string, c: char, rest: string)
    requires c !in body
    ensures IndexOf(body + [c] + rest, c) == Some(|body|)
    decreases body
  {
    var t := body + [c] + rest;
    if body != "" {
      assert t[1..] == body[1..] + [c] + rest && t[0] == body[0] && body[0] in body;
      IndexIsFirst(body[1..], c, rest);
    }
  }

  lemma {:induction false} FoundPair(t: string, a: char, b: char)
    requires IndexOfPair(t, a, b).Some?
    ensures var k := IndexOfPair(t, a, b).value;
            t[k..k + 2] == [a, b] && EndsAtFirst(t[..k], a, b)
    decreases t
  {
    if !Opens(t, a, b) {
      FoundPair(t[1..], a, b);
      var k := IndexOfPair(t[1..], a, b).value;
      Longer(t[0], t[1..][..k], a, b, t[1]);
      assert t[..k + 1] == [t[0]] + t[1..][..k];
      assert t[1..][k..k + 2] == t[k + 1..k + 3];
    } else {
      assert t[..0] == "";
    }
  }

  lemma Longer(c: char, body: string, a: char, b: char, next: char)
    requires EndsAtFirst(body, a, b) && next == (body + [a, b])[0] && !(c == a && next == b)
    ensures EndsAtFirst([c] + body, a, b)
  {
    var t, u := body + [a, b], [c] + body + [a, b];
    assert u == [c] + t;
    forall k, k' | 0 <= k < |body| + 1 && k' == k + 1 ensures !(u[k] == a && u[k'] == b) {
      if k > 0 {
        var j, j' := k - 1, k;
        assert !(t[j] == a && t[j'] == b);
      }
    }
  }

  lemma {:induction false} FoundChar(t: string, c: char)
    requires IndexOf(t, c).Some?
    ensures var k := IndexOf(t, c).value; t[k] == c && c !in t[..k]
    decreases t
  {
    if t[0] != c {
      FoundChar(t[1..], c);
      var k := IndexOf(t[1..], c).value;
      assert t[..k + 1] == [t[0]] + t[1..][..k];
    }
  }

  function Closer(m: Mode): char {
    if m.Line? then '\n' else '"'
  }

  /** How much of `u` belongs to the comment or string entered before it; None if it never ends. */
  function EndOf(m: Mode, u: string): (r: Option<nat>)
    requires !m.Normal?
    ensures r.Some? ==> 1 <= r.value <= |u|
  {
    if m.Block? || m.Long? then
      var r := if m.Block? then IndexOfPair(u, '*', '/') else IndexOfPair(u, '"', '}');
      if r.None? then None else Some(r.value + 2)
    else
      var r := IndexOf(u, Closer(m));
      if r.None? then None else Some(r.value + 1)
  }

  /** The mode a text starts, if it starts a comment or string, and the length of its opener. */
  function Opener(t: string): (r: (Mode, nat))
    requires t != ""
    ensures 1 <= r.1 <= |t|
  {
    if Opens(t, '{', '"') then (Long, 2)
    else if t[0] == '"' then (Quoted, 1)
    else if Opens(t, '/', '*') then (Block, 2)
    else if t[0] == '#' then (Line, 1)
    else if Opens(t, '/', '/') then (Line, 2)
    else (Normal, 1)
  }

  // ---------------------------------------------------------------------------
  // Every text has a lexical structure, and the scanner finds it
  // ---------------------------------------------------------------------------

  /** What follows the last complete piece: nothing, or a comment or string that never ends. */
  datatype Tail = Nothing | Unfinished(mode: Mode, lead: string, body: string)

  function TailText(u: Tail): string {
    if u.Nothing? then "" else u.lead + u.body
  }

  predicate WellFormedTail(u: Tail) {
    u.Unfinished? ==>
      && !u.mode.Normal? && EndOf(u.mode, u.body) == None
      && u.lead != "" && Opener(u.lead + u.body) == (u.mode, |u.lead|)
  }

  lemma TextSplits(ps: seq<Piece>, post: string)
    requires ps != []
    ensures Text(ps) + post == TextOf(ps[0]) + (Text(ps[1..]) + post)
    ensures |Text(ps)| == |TextOf(ps[0])| + |Text(ps[1..])|
  {
    TextUnfolds(ps);
    hide TextOf, Text;
    ConcatAssociates(TextOf(ps[0]), Text(ps[1..]), post);
  }

  lemma TextUnfolds(ps: seq<Piece>)
    requires ps != []
    ensures Text(ps) == TextOf(ps[0]) + Text(ps[1..])
  {
    hide TextOf;
  }

  /** The piece a text starts with: a byte of code, or a comment or string that ends. */
  function FirstPiece(t: string): (p: Piece)
    requires t != "" && (Opener(t).0.Normal? || EndOf(Opener(t).0, t[Opener(t).1..]).Some?)
  {
    var (m, lead) := Opener(t);
    if m.Normal? then Code(t[0])
    else
      var u := t[lead..];
      var k := EndOf(m, u).value;
      match m
      case Block => BlockComment(u[..k - 2])
      case Long => LongString(u[..k - 2])
      case Quoted => String(u[..k - 1])
      case _ => LineComment(lead == 1, u[..k - 1])
  }

  /** The text of a comment or string, from what its opener and its end are. */
  lemma EnclosedIs(t: string, m: Mode, lead: nat)
    requires !m.Normal? && lead <= |t| && EndOf(m, t[lead..]).Some?
    ensures var u := t[lead..];
      var k := EndOf(m, u).value;
      && k <= |u| && t == t[..lead] + u[..k] + t[lead + k..]
      && (m == Block ==> k >= 2 && u[..k] == u[..k - 2] + "*/" && EndsAtFirst(u[..k - 2], '*', '/'))
      && (m == Long ==> k >= 2 && u[..k] == u[..k - 2] + "\"}" && EndsAtFirst(u[..k - 2], '"', '}'))
      && (m == Line || m == Quoted ==>
            u[..k] == u[..k - 1] + [Closer(m)] && Closer(m) !in u[..k - 1])
  {
    hide IndexOf, IndexOfPair, EndsAtFirst;
    var u := t[lead..];
    if m == Block {
      FoundPair(u, '*', '/');
    } else if m == Long {
      FoundPair(u, '"', '}');
    } else {
      FoundChar(u, Closer(m));
    }
  }

  lemma FirstPieceIs(t: string)
    requires t != "" && (Opener(t).0.Normal? || EndOf(Opener(t).0, t[Opener(t).1..]).Some?)
    ensures var p := FirstPiece(t);
      && |TextOf(p)| <= |t| && t == TextOf(p) + t[|TextOf(p)|..] && WellFormed(p, t[|TextOf(p)|..])
  {
    hide EndOf, EndsAtFirst;
    var (m, lead) := Opener(t);
    if !m.Normal? {
      EnclosedIs(t, m, lead);
      var u := t[lead..];
      var k := EndOf(m, u).value;
      ConcatAssociates(t[..lead], u[..k - if m == Block || m == Long then 2 else 1],
                       if m == Block then "*/" else if m == Long then "\"}" else [Closer(m)]);
    }
  }

  /** Every text is a sequence of pieces and perhaps one that never ends. */
  lemma Decomposed(t: string) returns (ps: seq<Piece>, tail: Tail)
    ensures AllWellFormed(ps, TailText(tail)) && WellFormedTail(tail)
    ensures t == Text(ps) + TailText(tail)
    decreases |t|
  {
    if t == "" {
      return [], Nothing;
    }
    hide Opener, EndOf, TextOf, WellFormed, FirstPiece;
    var (m, lead) := Opener(t);
    if !m.Normal? && EndOf(m, t[lead..]).None? {
      assert t == t[..lead] + t[lead..];
      return [], Unfinished(m, t[..lead], t[lead..]);
    }
    var p := FirstPiece(t);
    FirstPieceIs(t);
    var rest := t[|TextOf(p)|..];
    ps, tail := Decomposed(rest);
    ps := [p] + ps;
    assert ps[1..] == ps[1..] && ps[0] == p;
    TextSplits(ps, TailText(tail));
  }

  predicate InsideHidden(ps: seq<Piece>, tail: Tail, n: nat) {
    if ps == [] then tail.Unfinished? && Hidden(tail.mode) && n > 0
    else if n < |TextOf(ps[0])| then Inside(ps[0], n)
    else InsideHidden(ps[1..], tail, n - |TextOf(ps[0])|)
  }

  lemma {:induction false} NeverEnds(u: string, m: Mode, n: nat)
    requires !m.Normal? && EndOf(m, u).None?
    ensures Scan(u, m, n) == m
    decreases u
  {
    if u != "" && n > 0 {
      ScanOnce(u, m, n);
      hide Scan;
      NeverEnds(u[1..], m, n - 1);
    }
  }

  lemma TailScan(tail: Tail, n: nat)
    requires WellFormedTail(tail)
    ensures HiddenAt(TailText(tail), n) <==> tail.Unfinished? && Hidden(tail.mode) && n > 0
  {
    if tail.Unfinished? {
      var t := tail.lead + tail.body;
      if n > 0 {
        ScanOnce(t, Normal, n);
        assert t[|tail.lead|..] == tail.body;
        NeverEnds(tail.body, tail.mode, Minus(n, |tail.lead|));
      }
    }
  }

  /** The scanner finds the lexical structure of every text: an offset is reported hidden just
      if it lies inside a block comment or long string, or behind the opener of one that never
      ends, whatever delimiters other pieces contain. */
  lemma {:induction false} HiddenIffInside(ps: seq<Piece>, tail: Tail, n: nat)
    requires AllWellFormed(ps, TailText(tail)) && WellFormedTail(tail)
    ensures HiddenAt(Text(ps) + TailText(tail), n) <==> InsideHidden(ps, tail, n)
    decreases ps
  {
    hide TextOf, Inside, WellFormed, Scan, TailText, WellFormedTail, Text;
    if ps != [] {
      var rest := Text(ps[1..]) + TailText(tail);
      TextSplits(ps, TailText(tail));
      ScanPiece(ps[0], rest, n);
      if n >= |TextOf(ps[0])| {
        HiddenIffInside(ps[1..], tail, n - |TextOf(ps[0])|);
      }
    } else {
      TextOfNothing();
      assert "" + TailText(tail) == TailText(tail);
      TailScan(tail, n);
    }
  }

  lemma TextOfNothing()
    ensures Text([]) == ""
  {}

  // ---------------------------------------------------------------------------
  // Where tokens end
  // ---------------------------------------------------------------------------

  /** Entered in mode `m`, the scanner gets to offset `k` at the end of a token, in mode `m'`. */
  predicate Reaches(t: string, m: Mode, k: nat, m': Mode)
    decreases |t|
  {
    if k == 0 then m' == m
    else
      && t != ""
      && var (next, n) := LexStep(t, m);
         n <= k && Reaches(t[n..], next, k - n, m')
  }

  /** From there on, the text is scanned like a text of its own. */
  lemma {:induction false} ReachesScan(t: string, m: Mode, k: nat, m': Mode, n: nat)
    requires Reaches(t, m, k, m') && k <= n
    ensures k <= |t| && Scan(t, m, n) == Scan(t[k..], m', n - k)
    decreases |t|
  {
    hide LexStep, Scan;
    if k == 0 {
      assert t[0..] == t;
    } else {
      ScanOnce(t, m, n);
      var (next, j) := LexStep(t, m);
      ReachesScan(t[j..], next, k - j, m', n - j);
      assert t[j..][k - j..] == t[k..];
    }
  }

  lemma {:induction false} ReachesOn(t: string, m: Mode, k: nat, m': Mode, j: nat, m'': Mode)
    requires Reaches(t, m, k, m') && k <= |t| && Reaches(t[k..], m', j, m'')
    ensures Reaches(t, m, k + j, m'')
    decreases |t|
  {
    hide LexStep;
    if k == 0 {
      assert t[0..] == t;
    } else {
      var (next, n) := LexStep(t, m);
      ReachesScan(t[n..], next, k - n, m', k - n);
      assert t[n..][k - n..] == t[k..];
      ReachesOn(t[n..], next, k - n, m', j, m'');
    }
  }

  lemma {:induction false} ReachesRest(t: string, m: Mode, k: nat, m': Mode, j: nat, m'': Mode)
    requires Reaches(t, m, k, m') && Reaches(t, m, j, m'') && k <= j
    ensures k <= |t| && Reaches(t[k..], m', j - k, m'')
    decreases |t|
  {
    hide LexStep;
    if k == 0 {
      assert t[0..] == t;
    } else {
      var (next, n) := LexStep(t, m);
      ReachesRest(t[n..], next, k - n, m', j - n, m'');
      assert t[n..][k - n..] == t[k..];
    }
  }

  lemma ReachesOnce(t: string, m: Mode)
    requires t != ""
    ensures Reaches(t, m, LexStep(t, m).1, LexStep(t, m).0)
  {
    hide LexStep;
  }

  /** No token of the scanner starts with this byte and goes on. */
  predicate Settles(c: char) {
    c !in "/{*\""
  }

  /** A token that ends in such a byte ends there whatever follows, so the scan up to that
      point does not depend on the rest of the text. */
  lemma {:induction false} ReachesSame(t: string, u: string, m: Mode, k: nat, m': Mode, n: nat)
    requires Reaches(t, m, k, m') && n <= k <= |t| && k <= |u| && t[..k] == u[..k]
    requires k > 0 ==> Settles(t[k - 1])
    ensures Reaches(u, m, k, m') && Scan(u, m, n) == Scan(t, m, n)
    decreases |t|
  {
    hide LexStep, Scan, Settles;
    ScanHere(t, m);
    ScanHere(u, m);
    if k > 0 {
      SameStep(t, u, m, k);
      if n > 0 {
        ScanOnce(t, m, n);
        ScanOnce(u, m, n);
      }
      var (next, j) := LexStep(t, m);
      SamePrefixBehind(t, u, k, j);
      ReachesSame(t[j..], u[j..], next, k - j, m', Minus(n, j));
    }
  }

  lemma SamePrefixBehind(t: string, u: string, k: nat, j: nat)
    requires j <= k <= |t| && k <= |u| && t[..k] == u[..k]
    ensures t[j..][..k - j] == u[j..][..k - j]
    ensures k > j ==> t[j..][k - j - 1] == t[k - 1]
  {
    assert t[j..][..k - j] == t[..k][j..];
    assert u[j..][..k - j] == u[..k][j..];
  }

  lemma SameStep(t: string, u: string, m: Mode, k: nat)
    requires 0 < k <= |t| && k <= |u| && t[..k] == u[..k]
    requires LexStep(t, m).1 <= k && Settles(t[k - 1])
    ensures LexStep(u, m) == LexStep(t, m)
  {
    assert t[0] == t[..k][0] == u[..k][0] == u[0];
    if k > 1 {
      assert t[1] == t[..k][1] == u[..k][1] == u[1];
    }
  }

  /** Tokens end at line ends, and at the start of a line no line comment is open. */
  lemma {:induction false} LineStartReaches(t: string, m: Mode, k: nat)
    requires 0 < k <= |t| && t[k - 1] == '\n'
    ensures Reaches(t, m, k, Scan(t, m, k)) && Scan(t, m, k) != Line
    decreases |t|
  {
    var (next, n) := LexStep(t, m);
    ScanOnce(t, m, k);
    if k == 1 {
      ScanHere(t[1..], next);
    } else {
      hide Scan;
      if n < k {
        assert t[n..][k - n - 1] == t[k - 1];
        hide LexStep;
        LineStartReaches(t[n..], next, k - n);
      } else {
        ScanHere(t[n..], next);
      }
    }
  }

  /** Bytes that are code wherever the scanner meets them in code. */
  predicate Plain(s: string) {
    forall c | c in s :: c !in "/\"#{"
  }

  lemma {:induction false} PlainReaches(s: string, rest: string)
    requires Plain(s)
    ensures Reaches(s + rest, Normal, |s|, Normal)
    decreases s
  {
    if s != "" {
      assert s[0] in s && forall c | c in s[1..] :: c in s;
      assert (s + rest)[1..] == s[1..] + rest;
      PlainReaches(s[1..], rest);
    }
  }
}
