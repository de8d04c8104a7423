/** The brace matcher of the drain injector: where the block opened by a brace ends. */
module VclBlocks {
  import opened Basics
  import opened VclLexer

  /** How far the brace matcher moves over `t`; None if a comment or string never ends. */
  function Advance(t: string): (r: Option<nat>)
    requires t != ""
    ensures r.Some? ==> 1 <= r.value <= |t|
  {
    if Opens(t, '{', '"') then
      var r := IndexOfPair(t[2..], '"', '}');
      if r.None? then None else Some(r.value + 4)
    else if t[0] == '"' then
      var r := IndexOf(t[1..], '"');
      if r.None? then None else Some(r.value + 2)
    else if Opens(t, '/', '*') then
      var r := IndexOfPair(t[2..], '*', '/');
      if r.None? then None else Some(r.value + 4)
    else if t[0] == '#' || Opens(t, '/', '/') then
      var r := IndexOf(t, '\n');
      if r.None? then None else Some(r.value + 1)
    else Some(1)
  }

  /** The change of nesting at the start of `t`. */
  function Nesting(t: string): int
    requires t != ""
  {
    if t[0] == '{' && !Opens(t, '{', '"') then 1 else if t[0] == '}' then -1 else 0
  }

  /** Offset just past the brace that closes `depth` open blocks. */
  function CloseBrace(t: string, depth: int): (r: Option<nat>)
    ensures r.Some? ==> 1 <= r.value <= |t|
    decreases |t|
  {
    if t == "" then None
    else
      var k := Advance(t);
      if k.None? then None
      else
        var d := depth + Nesting(t);
        if d == 0 then Some(k.value)
        else
          var r := CloseBrace(t[k.value..], d);
          if r.None? then None else Some(k.value + r.value)
  }

  lemma AdvanceOverComment(body: string, rest: string)
    requires EndsAtFirst(body, '*', '/')
    ensures Advance("/*" + (body + "*/") + rest) == Some(|body| + 4)
  {
    hide IndexOfPair, EndsAtFirst;
    assert ("/*" + (body + "*/") + rest)[2..] == body + ['*', '/'] + rest;
    PairIsFirst(body, '*', '/', rest);
  }

  lemma AdvanceOverLongString(body: string, rest: string)
    requires EndsAtFirst(body, '"', '}')
    ensures Advance("{\"" + (body + "\"}") + rest) == Some(|body| + 4)
  {
    hide IndexOfPair, EndsAtFirst;
    assert ("{\"" + (body + "\"}") + rest)[2..] == body + ['"', '}'] + rest;
    PairIsFirst(body, '"', '}', rest);
  }

  lemma AdvanceOverLine(hash: bool, body: string, rest: string)
    requires '\n' !in body
    ensures var lead := if hash then "#" else "//";
            Advance(lead + (body + "\n") + rest) == Some(|lead| + |body| + 1)
  {
    hide IndexOf;
    var lead := if hash then "#" else "//";
    assert lead + (body + "\n") + rest == lead + body + "\n" + rest;
    IndexIsFirst(lead + body, '\n', rest);
  }

  lemma AdvanceOverString(body: string, rest: string)
    requires '"' !in body
    ensures Advance("\"" + (body + "\"") + rest) == Some(|body| + 2)
  {
    hide IndexOf;
    assert ("\"" + (body + "\"") + rest)[1..] == body + "\"" + rest;
    IndexIsFirst(body, '"', rest);
  }

  /** The matcher passes exactly one piece at a time. */
  lemma AdvanceIsPiece(p: Piece, rest: string)
    requires WellFormed(p, rest)
    ensures Advance(TextOf(p) + rest) == Some(|TextOf(p)|)
  {
    match p
    case Code(c) =>
    case BlockComment(b) => hide Advance, EndsAtFirst; AdvanceOverComment(b, rest);
    case LineComment(hash, b) => hide Advance; AdvanceOverLine(hash, b, rest);
    case String(b) => hide Advance; AdvanceOverString(b, rest);
    case LongString(b) => hide Advance, EndsAtFirst; AdvanceOverLongString(b, rest);
  }

  function Braces(p: Piece): int {
    if p == Code('{') then 1 else if p == Code('}') then -1 else 0
  }

  lemma NestingIsPiece(p: Piece, rest: string)
    requires WellFormed(p, rest)
    ensures Nesting(TextOf(p) + rest) == Braces(p)
  {}

  /** Code braces of `ps` match up, `depth` being open before. */
  predicate Balanced(ps: seq<Piece>, depth: int) {
    if ps == [] then depth == 1
    else
      var d := depth + Braces(ps[0]);
      d >= 1 && Balanced(ps[1..], d)
  }

  lemma CloseUnfolds(t: string, depth: int)
    requires t != "" && Advance(t).Some?
    ensures var k, d := Advance(t).value, depth + Nesting(t);
      CloseBrace(t, depth) ==
        if d == 0 then Some(k)
        else
          var r := CloseBrace(t[k..], d);
          if r.None? then None else Some(k + r.value)
  {
    hide Advance, Nesting;
  }

  lemma ClosePiece(p: Piece, more: string, depth: int)
    requires WellFormed(p, more)
    ensures var d := depth + Braces(p);
      CloseBrace(TextOf(p) + more, depth) ==
        if d == 0 then Some(|TextOf(p)|)
        else
          var r := CloseBrace(more, d);
          if r.None? then None else Some(|TextOf(p)| + r.value)
  {
    hide TextOf, WellFormed, Advance, Nesting, CloseBrace, Braces;
    var t := TextOf(p) + more;
    AdvanceIsPiece(p, more);
    NestingIsPiece(p, more);
    CloseUnfolds(t, depth);
    assert t[|TextOf(p)|..] == more;
  }

  lemma ClosesAtOnce(rest: string)
    ensures CloseBrace("}" + rest, 1) == Some(1)
  {
    hide CloseBrace;
    ClosePiece(Code('}'), rest, 1);
  }

  /** The closing brace of a block is found whatever its comments and strings contain. */
  lemma {:induction false} CloseBraceMatches(ps: seq<Piece>, depth: int, rest: string)
    requires AllWellFormed(ps, "}" + rest) && Balanced(ps, depth)
    ensures CloseBrace(Text(ps) + ("}" + rest), depth) == Some(|Text(ps)| + 1)
    decreases ps
  {
    hide TextOf, WellFormed, CloseBrace, Braces;
    if ps == [] {
      assert "" + ("}" + rest) == "}" + rest;
      ClosesAtOnce(rest);
    } else {
      hide Text;
      TextSplits(ps, "}" + rest);
      ClosePiece(ps[0], Text(ps[1..]) + ("}" + rest), depth);
      CloseBraceMatches(ps[1..], depth + Braces(ps[0]), rest);
    }
  }

  // ---------------------------------------------------------------------------
  // Matcher and scanner agree
  // ---------------------------------------------------------------------------

  lemma {:induction false} PairReaches(t: string, m: Mode)
    requires m == Block || m == Long
    requires EndOf(m, t).Some?
    ensures Reaches(t, m, EndOf(m, t).value, Normal)
    decreases t
  {
    ReachesOnce(t, m);
    var a, b := if m == Block then '*' else '"', if m == Block then '/' else '}';
    if !Opens(t, a, b) {
      PairReaches(t[1..], m);
    }
  }

  lemma {:induction false} CharReaches(t: string, m: Mode)
    requires m == Line || m == Quoted
    requires EndOf(m, t).Some?
    ensures Reaches(t, m, EndOf(m, t).value, Normal)
    decreases t
  {
    ReachesOnce(t, m);
    if t[0] != Closer(m) {
      CharReaches(t[1..], m);
    }
  }

  lemma OpenerReaches(t: string)
    requires t != ""
    ensures Reaches(t, Normal, Opener(t).1, Opener(t).0)
  {
    ReachesOnce(t, Normal);
    hide Reaches;
  }

  lemma LineEnds(t: string, lead: nat)
    requires (lead == 1 && t != "" && t[0] == '#') || (lead == 2 && Opens(t, '/', '/'))
    ensures IndexOf(t, '\n') == (var r := IndexOf(t[lead..], '\n'); if r.None? then None else Some(r.value + lead))
  {
    if lead == 2 {
      assert t[1..][1..] == t[2..];
    }
  }

  lemma AdvanceOpener(t: string)
    requires t != ""
    ensures var (m, lead) := Opener(t);
      if m.Normal? then lead == 1 && Advance(t) == Some(1)
      else
        var r := EndOf(m, t[lead..]);
        Advance(t) == if r.None? then None else Some(lead + r.value)
  {
    hide IndexOfPair;
    if t[0] == '#' {
      LineEnds(t, 1);
      hide IndexOf;
    } else if Opens(t, '/', '/') {
      LineEnds(t, 2);
      hide IndexOf;
    }
  }

  /** Scanner and brace matcher agree on where comments and strings end, on every text. */
  lemma AdvanceReaches(t: string)
    requires t != "" && Advance(t).Some?
    ensures Reaches(t, Normal, Advance(t).value, Normal)
  {
    hide Reaches, Advance, Opener, EndOf;
    var (m, lead) := Opener(t);
    AdvanceOpener(t);
    OpenerReaches(t);
    if !m.Normal? {
      var u := t[lead..];
      if m == Block || m == Long {
        PairReaches(u, m);
      } else {
        CharReaches(u, m);
      }
      ReachesOn(t, Normal, lead, m, EndOf(m, u).value, Normal);
    }
  }

  /** On every text, well formed or not: a block entered in code ends in code, at the end of
      a token. */
  lemma {:induction false} BlockEndIsCode(t: string, depth: int)
    requires CloseBrace(t, depth).Some?
    ensures Reaches(t, Normal, CloseBrace(t, depth).value, Normal)
    decreases |t|
  {
    hide Reaches, Advance, Nesting;
    var k := Advance(t).value;
    AdvanceReaches(t);
    if depth + Nesting(t) != 0 {
      BlockEndIsCode(t[k..], depth + Nesting(t));
      ReachesOn(t, Normal, k, Normal, CloseBrace(t[k..], depth + Nesting(t)).value, Normal);
    }
  }

  /** A block ends with its closing brace. */
  lemma {:induction false} EndsWithBrace(t: string, depth: int)
    requires CloseBrace(t, depth).Some? && depth > 0
    ensures t[CloseBrace(t, depth).value - 1] == '}'
    decreases |t|
  {
    hide Advance;
    var k := Advance(t).value;
    var d := depth + Nesting(t);
    if d != 0 {
      EndsWithBrace(t[k..], d);
    } else {
      ClosingIsOneByte(t);
    }
  }

  lemma ClosingIsOneByte(t: string)
    requires t != "" && Nesting(t) == -1
    ensures t[0] == '}' && Advance(t) == Some(1)
  {}
}
