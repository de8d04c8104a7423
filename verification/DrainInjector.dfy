/** The loops of the drain injector, each proved to compute the function that specifies it. */
module DrainInjector {
  import opened Basics
  import opened VclLexer
  import opened VclBlocks
  import opened DrainInjection

  method InCommentOrLongString(vcl: string, pos: nat) returns (hidden: bool)
    ensures hidden == HiddenAt(vcl, pos)
  {
    hide Scan;
    var answers := InCommentOrLongStringAt(vcl, [pos]);
    hidden := answers[0];
  }

  /** Matches outside block comments and long strings. */
  method ImportStdPositions(vcl: string, locs: seq<Range>) returns (result: seq<Range>)
    ensures result == Live(vcl, locs)
  {
    hide HiddenAt;
    result := [];
    assert locs[0..] == locs;
    for i := 0 to |locs|
      invariant result + Live(vcl, locs[i..]) == Live(vcl, locs)
    {
      LiveUnfolds(vcl, locs, i, result);
      var hidden := InCommentOrLongString(vcl, locs[i].start);
      if hidden {
        continue;
      }
      result := result + [locs[i]];
    }
    assert locs[|locs|..] == [];
  }

  lemma LiveUnfolds(vcl: string, locs: seq<Range>, i: nat, acc: seq<Range>)
    requires i < |locs|
    ensures acc + Live(vcl, locs[i..]) ==
            (if HiddenAt(vcl, locs[i].start) then acc else acc + [locs[i]]) + Live(vcl, locs[i + 1..])
  {
    hide HiddenAt;
    assert locs[i..][1..] == locs[i + 1..];
  }

  lemma LiveOnce(vcl: string, locs: seq<Range>, i: nat)
    requires i < |locs|
    ensures !HiddenAt(vcl, locs[i].start) ==> Live(vcl, locs[i..]) == [locs[i]] + Live(vcl, locs[i + 1..])
    ensures HiddenAt(vcl, locs[i].start) ==> Live(vcl, locs[i..]) == Live(vcl, locs[i + 1..])
  {
    hide HiddenAt;
    assert locs[i..][1..] == locs[i + 1..];
  }

  /** The first match outside comments and long strings, as used for the version line and
      the user's vcl_deliver. */
  method FirstLive(vcl: string, locs: seq<Range>) returns (r: Option<Range>)
    ensures r == var live := Live(vcl, locs); if live == [] then None else Some(live[0])
  {
    hide HiddenAt;
    assert locs[0..] == locs;
    for i := 0 to |locs|
      invariant Live(vcl, locs[i..]) == Live(vcl, locs)
    {
      LiveOnce(vcl, locs, i);
      var hidden := InCommentOrLongString(vcl, locs[i].start);
      if !hidden {
        return Some(locs[i]);
      }
    }
    assert locs[|locs|..] == [];
    return None;
  }

  /** Walks from an opening brace to the end of its block. */
  method EndOfBlock(vcl: string, openBrace: nat) returns (end: nat)
    requires openBrace < |vcl|
    ensures end == BlockEnd(vcl, openBrace)
  {
    hide CloseBrace, Advance, Nesting;
    var depth := 1;
    var i := openBrace + 1;
    ghost var whole := CloseBrace(vcl[i..], 1);
    while i < |vcl|
      invariant openBrace < i <= |vcl|
      invariant var rest := CloseBrace(vcl[i..], depth);
                if rest.None? then whole == None else whole == Some(i - (openBrace + 1) + rest.value)
      decreases |vcl| - i
    {
      var t := vcl[i..];
      CloseOnce(t, depth);
      var k := PassOne(t);
      if k.None? {
        return openBrace + 1;
      }
      if vcl[i] == '{' && !Opens(t, '{', '"') {
        depth := depth + 1;
      } else if vcl[i] == '}' {
        depth := depth - 1;
      }
      NestingIs(t);
      if depth == 0 {
        end := i + k.value;
        if end < |vcl| && vcl[end] == '\n' {
          end := end + 1;
        }
        return;
      }
      assert t[k.value..] == vcl[i + k.value..];
      i := i + k.value;
    }
    CloseNothing(vcl[i..], depth);
    return openBrace + 1;
  }

  /** How far one turn of the loop moves: over a long string, a string, a comment, or a byte. */
  method PassOne(t: string) returns (k: Option<nat>)
    requires t != ""
    ensures k == Advance(t)
  {
    if |t| > 1 && t[0] == '{' && t[1] == '"' {
      var rel := IndexOfPair(t[2..], '"', '}');
      return if rel.None? then None else Some(2 + rel.value + 2);
    }
    if t[0] == '"' {
      var rel := IndexOf(t[1..], '"');
      return if rel.None? then None else Some(1 + rel.value + 1);
    }
    if |t| > 1 && t[0] == '/' && t[1] == '*' {
      var rel := IndexOfPair(t[2..], '*', '/');
      return if rel.None? then None else Some(2 + rel.value + 2);
    }
    if t[0] == '#' || (|t| > 1 && t[0] == '/' && t[1] == '/') {
      var nl := IndexOf(t, '\n');
      return if nl.None? then None else Some(nl.value + 1);
    }
    return Some(1);
  }

  lemma CloseOnce(t: string, depth: int)
    requires t != ""
    ensures CloseBrace(t, depth) ==
      if Advance(t).None? then None
      else
        var k, d := Advance(t).value, depth + Nesting(t);
        if d == 0 then Some(k)
        else
          var r := CloseBrace(t[k..], d);
          if r.None? then None else Some(k + r.value)
  {
    hide Advance, Nesting;
  }

  lemma CloseNothing(t: string, depth: int)
    requires t == ""
    ensures CloseBrace(t, depth) == None
  {}

  lemma NestingIs(t: string)
    requires t != ""
    ensures Nesting(t) == if t[0] == '{' && !Opens(t, '{', '"') then 1 else if t[0] == '}' then -1 else 0
  {}

  /** The ends of all backend blocks, with one scan for all of them. */
  method BackendBlockEnds(vcl: string, locs: seq<Range>) returns (ends: seq<nat>)
    requires Fits(locs, |vcl|)
    ensures Fits(Live(vcl, locs), |vcl|) && ends == EndsOf(vcl, Live(vcl, locs))
  {
    hide BlockEnd, HiddenAt, Live, EndsOf;
    var starts := seq(|locs|, i requires 0 <= i < |locs| => locs[i].start);
    assert forall i, j | 0 <= i < j < |locs| :: locs[i].start < locs[i].end <= locs[j].start;
    var answers := InCommentOrLongStringAt(vcl, starts);
    var commented := answers[..];
    assert forall i | 0 <= i < |locs| :: commented[i] == HiddenAt(vcl, locs[i].start);
    ends := [];
    assert locs[0..] == locs;
    LiveFits(vcl, locs, |vcl|);
    assert [] + EndsOf(vcl, Live(vcl, locs)) == EndsOf(vcl, Live(vcl, locs));
    for i := 0 to |locs|
      invariant Fits(Live(vcl, locs[i..]), |vcl|)
      invariant ends + EndsOf(vcl, Live(vcl, locs[i..])) == EndsOf(vcl, Live(vcl, locs))
    {
      EndsOnce(vcl, locs, i);
      if commented[i] {
        continue;
      }
      var end := EndOfBlock(vcl, locs[i].end - 1);
      AppendsOne(ends, end, EndsOf(vcl, Live(vcl, locs[i + 1..])));
      ends := ends + [end];
    }
    assert locs[|locs|..] == [];
    NoEnds(vcl);
  }

  lemma NoEnds(vcl: string)
    ensures Live(vcl, []) == [] && EndsOf(vcl, []) == []
  {}

  lemma EndsOnce(vcl: string, locs: seq<Range>, i: nat)
    requires i < |locs| && Fits(locs, |vcl|) && Fits(Live(vcl, locs[i..]), |vcl|)
    ensures Fits(Live(vcl, locs[i + 1..]), |vcl|) && 0 < locs[i].end <= |vcl|
    ensures var (all, rest) := (EndsOf(vcl, Live(vcl, locs[i..])), EndsOf(vcl, Live(vcl, locs[i + 1..])));
      && (HiddenAt(vcl, locs[i].start) ==> all == rest)
      && (!HiddenAt(vcl, locs[i].start) ==> all == [BlockEnd(vcl, locs[i].end - 1)] + rest)
  {
    InRange(locs, |vcl|, i);
    hide HiddenAt, BlockEnd, Live, EndsOf, Fits;
    LiveOnce(vcl, locs, i);
    if !HiddenAt(vcl, locs[i].start) {
      EndsOfCons(vcl, locs[i], Live(vcl, locs[i + 1..]));
    }
  }

  lemma AppendsOne(a: seq<nat>, x: nat, b: seq<nat>)
    ensures a + ([x] + b) == a + [x] + b
  {}

  lemma InRange(rs: seq<Range>, n: nat, i: nat)
    requires Fits(rs, n) && i < |rs|
    ensures 0 < rs[i].end <= n
  {}

  lemma EndsOfCons(vcl: string, r: Range, rest: seq<Range>)
    requires Fits([r] + rest, |vcl|) && 0 < r.end <= |vcl|
    ensures Fits(rest, |vcl|) && EndsOf(vcl, [r] + rest) == [BlockEnd(vcl, r.end - 1)] + EndsOf(vcl, rest)
  {
    hide BlockEnd;
    assert ([r] + rest)[1..] == rest;
    FitsTail([r] + rest, |vcl|);
    hide Fits;
  }

  method LastBackendBlockEnd(ends: seq<nat>) returns (last: nat)
    ensures last == Largest(ends)
  {
    last := 0;
    for i := 0 to |ends|
      invariant last == Largest(ends[..i])
    {
      assert ends[..i + 1][..i] == ends[..i];
      if ends[i] > last {
        last := ends[i];
      }
    }
    assert ends[..|ends|] == ends;
  }

  /** Copies the text, replacing every match from `from` on by its commented form. */
  method CommentOutFrom(vcl: string, positions: seq<Range>, from: nat) returns (out: string)
    requires Fits(positions, |vcl|)
    ensures out == CommentOut(vcl, positions, from, 0)
  {
    hide Commented, Fits;
    out := "";
    var prev: nat := 0;
    var i := 0;
    assert positions[0..] == positions;
    assert "" + CommentOut(vcl, positions, from, 0) == CommentOut(vcl, positions, from, 0);
    while i < |positions|
      invariant 0 <= i <= |positions| && prev <= |vcl| && Fits(positions[i..], |vcl|)
      invariant i < |positions| ==> prev <= positions[i].start
      invariant out + CommentOut(vcl, positions[i..], from, prev) == CommentOut(vcl, positions, from, 0)
    {
      var pos := positions[i];
      CommentOutOnce(vcl, positions[i..], from, prev, out);
      assert positions[i..][1..] == positions[i + 1..];
      i := i + 1;
      if pos.start < from {
        continue;
      }
      out := out + (vcl[prev..pos.start] + Commented(vcl[pos.start..pos.end]));
      prev := pos.end;
    }
    out := out + vcl[prev..];
  }

  lemma CommentOutOnce(vcl: string, rs: seq<Range>, from: nat, prev: nat, out: string)
    requires Fits(rs, |vcl|) && prev <= |vcl| && rs != [] && prev <= rs[0].start
    ensures rs[0].start < rs[0].end <= |vcl| && Fits(rs[1..], |vcl|)
    ensures |rs| > 1 ==> rs[0].end <= rs[1].start && prev <= rs[1].start
    ensures out + CommentOut(vcl, rs, from, prev) ==
      if rs[0].start < from then out + CommentOut(vcl, rs[1..], from, prev)
      else out + (vcl[prev..rs[0].start] + Commented(vcl[rs[0].start..rs[0].end])) + CommentOut(vcl, rs[1..], from, rs[0].end)
  {
    FitsTail(rs, |vcl|);
    StartsInOrder(rs, |vcl|, prev);
    hide Fits, Commented;
    if rs[0].start >= from {
      ConcatAssociates(out, vcl[prev..rs[0].start] + Commented(vcl[rs[0].start..rs[0].end]), CommentOut(vcl, rs[1..], from, rs[0].end));
    }
  }

  method HasImportBefore(imports: seq<Range>, at: nat) returns (found: bool)
    ensures found == StartsBefore(imports, at)
  {
    for i := 0 to |imports|
      invariant forall j | 0 <= j < i :: imports[j].start >= at
    {
      if imports[i].start < at {
        assert imports[i] in imports;
        return true;
      }
    }
    return false;
  }

  method FirstImportFrom(imports: seq<Range>, at: nat) returns (r: Option<Range>)
    ensures r == FirstFrom(imports, at)
  {
    assert imports[0..] == imports;
    for i := 0 to |imports|
      invariant FirstFrom(imports[i..], at) == FirstFrom(imports, at)
    {
      assert imports[i..][1..] == imports[i + 1..];
      if imports[i].start >= at {
        return Some(imports[i]);
      }
    }
    return None;
  }

  method InjectDrainPrepended(vcl: string, name: string, firstEnd: nat, deliver: nat, syn: Syntax)
    returns (out: string)
    requires Regular(syn)
    ensures out == InjectPrepended(vcl, name, firstEnd, deliver, syn)
  {
    hide Regular, BackendBlock, DeliverSub, Splice, Live, StartsBefore, CommentOut, Fits;
    var imports := ImportStdPositions(vcl, syn.imports(vcl));
    ImportsFit(vcl, syn);
    var early := HasImportBefore(imports, deliver);
    var c := CommentOutFrom(vcl, imports, deliver);
    out := Splice(Splice(c, deliver, DeliverSub(name)), firstEnd, BackendBlock(name));
    if !early {
      var version := FirstLive(c, syn.versions(c));
      var v := if version.None? || version.value.end > deliver then 0 else version.value.end;
      out := Splice(out, v, IMPORT_STD);
    }
  }

  method InjectDrainVCLLegacy(vcl: string, name: string, backendsEnd: nat, syn: Syntax) returns (out: string)
    requires Regular(syn)
    ensures out == InjectLegacy(vcl, name, backendsEnd, syn)
  {
    hide Regular, BackendBlock, DeliverSub, Splice, Live, StartsBefore, CommentOut, Fits, FirstFrom;
    var version := FirstLive(vcl, syn.versions(vcl));
    var v := if version.None? then 0 else version.value.end;
    var imports := ImportStdPositions(vcl, syn.imports(vcl));
    ImportsFit(vcl, syn);
    var drain := BackendBlock(name) + DeliverSub(name);
    if backendsEnd == 0 {
      var r := FirstImportFrom(imports, v);
      if r.Some? {
        var kept := CommentOutFrom(vcl, imports, r.value.end);
        return Splice(kept, r.value.end, drain);
      }
      return Splice(Splice(vcl, v, IMPORT_STD), v + |IMPORT_STD|, drain);
    }
    var early := HasImportBefore(imports, backendsEnd);
    var c := CommentOutFrom(vcl, imports, backendsEnd);
    if early {
      return Splice(c, backendsEnd, drain);
    }
    return Splice(Splice(c, v, IMPORT_STD), backendsEnd + |IMPORT_STD|, drain);
  }

  /** The whole injection; the flag asks for a warning. */
  method InjectDrainVCL(vcl: string, name: string, syn: Syntax) returns (out: string, warn: bool)
    requires Regular(syn)
    ensures (out, warn) == InjectDrain(vcl, name, syn)
  {
    hide Live, EndsOf, Largest, InjectPrepended, InjectLegacy;
    BackendsFit(vcl, syn);
    var ends := BackendBlockEnds(vcl, syn.backends(vcl));
    var backendsEnd := LastBackendBlockEnd(ends);
    var deliver := FirstLive(vcl, syn.delivers(vcl));
    if deliver.Some? && deliver.value.start < backendsEnd {
      if |ends| > 0 && ends[0] <= deliver.value.start {
        out := InjectDrainPrepended(vcl, name, ends[0], deliver.value.start, syn);
        return out, false;
      }
      out := InjectDrainVCLLegacy(vcl, name, backendsEnd, syn);
      return out, true;
    }
    out := InjectDrainVCLLegacy(vcl, name, backendsEnd, syn);
    return out, false;
  }
}
