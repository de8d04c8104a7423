/** What drain injection finds in the user's text, told by the pattern matches and the pieces
    of the text alone, and what commenting out imports does byte for byte. */
module DrainFinding {
  import opened Basics
  import opened VclLexer
  import opened VclBlocks
  import opened DrainInjection

  // ---------------------------------------------------------------------------
  // Matches
  // ---------------------------------------------------------------------------

  /** `r` is the first match in list order that is not hidden. */
  ghost predicate IsFirst(vcl: string, rs: seq<Range>, r: Range) {
    exists i :: 0 <= i < |rs| && rs[i] == r && !HiddenAt(vcl, r.start)
                && forall j | 0 <= j < i :: HiddenAt(vcl, rs[j].start)
  }

  lemma {:induction false} StructureIsFound(vcl: string, rs: seq<Range>)
    ensures forall r :: r in Live(vcl, rs) <==> r in rs && !HiddenAt(vcl, r.start)
    ensures if Live(vcl, rs) == [] then forall r | r in rs :: HiddenAt(vcl, r.start)
            else IsFirst(vcl, rs, Live(vcl, rs)[0])
  {
    hide HiddenAt;
    if rs != [] {
      var rest := rs[1..];
      StructureIsFound(vcl, rest);
      assert rs == [rs[0]] + rest;
      if !HiddenAt(vcl, rs[0].start) {
        assert Live(vcl, rs)[0] == rs[0];
      } else {
        assert Live(vcl, rs) == Live(vcl, rest);
        if Live(vcl, rest) != [] {
          FirstOfRest(vcl, rs, Live(vcl, rest)[0]);
        }
      }
    }
  }

  lemma FirstOfRest(vcl: string, rs: seq<Range>, r: Range)
    requires rs != [] && HiddenAt(vcl, rs[0].start) && IsFirst(vcl, rs[1..], r)
    ensures IsFirst(vcl, rs, r)
  {
    hide HiddenAt;
    var i :| 0 <= i < |rs[1..]| && rs[1..][i] == r && !HiddenAt(vcl, r.start)
             && forall j | 0 <= j < i :: HiddenAt(vcl, rs[1..][j].start);
    forall j | 0 <= j < i + 1 ensures HiddenAt(vcl, rs[j].start) {
      if j > 0 {
        assert rs[j] == rs[1..][j - 1];
      }
    }
    assert rs[i + 1] == r;
  }

  /** The version line taken is the first match outside comments and long strings, or the top
      of the text if there is none; so is the user's vcl_deliver; and the imports and backends
      taken are exactly the matches outside them. */
  lemma StructureIsTaken(vcl: string, syn: Syntax)
    ensures (VersionEnd(vcl, syn) == 0 && forall r | r in syn.versions(vcl) :: HiddenAt(vcl, r.start))
            || exists r :: IsFirst(vcl, syn.versions(vcl), r) && VersionEnd(vcl, syn) == r.end
    ensures match DeliverStart(vcl, syn)
            case None => forall r | r in syn.delivers(vcl) :: HiddenAt(vcl, r.start)
            case Some(at) => exists r :: IsFirst(vcl, syn.delivers(vcl), r) && at == r.start
    ensures forall r :: r in Imports(vcl, syn) <==> r in syn.imports(vcl) && !HiddenAt(vcl, r.start)
    ensures forall r :: r in Backends(vcl, syn) <==> r in syn.backends(vcl) && !HiddenAt(vcl, r.start)
  {
    hide Live, HiddenAt, IsFirst;
    StructureIsFound(vcl, syn.versions(vcl));
    StructureIsFound(vcl, syn.delivers(vcl));
    StructureIsFound(vcl, syn.imports(vcl));
    StructureIsFound(vcl, syn.backends(vcl));
  }

  /** The import found is the first of those that start at or behind an offset. */
  lemma {:induction false} FirstFromIsFirst(rs: seq<Range>, at: nat, n: nat)
    requires Fits(rs, n)
    ensures var r := FirstFrom(rs, at);
      if r.None? then forall q | q in rs :: q.start < at
      else r.value in rs && r.value.start >= at && forall q | q in rs && q.start >= at :: r.value.start <= q.start
    decreases rs
  {
    if rs != [] {
      FitsTail(rs, n);
      assert rs == [rs[0]] + rs[1..];
      if rs[0].start >= at {
        forall q | q in rs ensures rs[0].start <= q.start {
          var i :| 0 <= i < |rs| && rs[i] == q;
        }
      } else {
        FirstFromIsFirst(rs[1..], at, n);
      }
    }
  }

  // ---------------------------------------------------------------------------
  // Blocks
  // ---------------------------------------------------------------------------

  lemma MatchIsInside(rs: seq<Range>, n: nat, i: nat)
    requires Fits(rs, n) && i < |rs|
    ensures rs[i].start < rs[i].end <= n
  {}

  /** The ends are those of the backends found, in order. */
  lemma {:induction false} EndsFollowBackends(vcl: string, rs: seq<Range>, i: nat)
    requires Fits(rs, |vcl|) && i < |rs|
    ensures |EndsOf(vcl, rs)| == |rs| && rs[i].end > 0
    ensures EndsOf(vcl, rs)[i] == BlockEnd(vcl, rs[i].end - 1)
    decreases rs
  {
    hide BlockEnd, Fits;
    EndsAreWithin(vcl, rs);
    MatchIsInside(rs, |vcl|, i);
    FitsTail(rs, |vcl|);
    if i > 0 {
      EndsFollowBackends(vcl, rs[1..], i - 1);
      assert rs[i] == rs[1..][i - 1];
    }
  }

  /** A block made of comments, strings and code with balanced braces ends behind its closing
      brace and one newline, whatever its comments and strings contain. */
  lemma BalancedBlockEnds(pre: string, ps: seq<Piece>, post: string)
    requires AllWellFormed(ps, "}" + post) && Balanced(ps, 1)
    ensures var vcl := pre + ("{" + (Text(ps) + ("}" + post)));
            var close := |pre| + 1 + |Text(ps)| + 1;
            && BlockEnd(vcl, |pre|) == (if post != "" && post[0] == '\n' then close + 1 else close)
            && vcl[close - 1] == '}' && vcl[close..] == post
  {
    hide CloseBrace, AllWellFormed, Balanced, Text;
    var inner := Text(ps) + ("}" + post);
    var vcl := pre + ("{" + inner);
    assert vcl[|pre| + 1..] == inner;
    CloseBraceMatches(ps, 1, post);
    BlockEndIs(vcl, |pre|);
    var close := |pre| + 1 + |Text(ps)| + 1;
    assert vcl[close..] == inner[|Text(ps)| + 1..] == post;
    assert close < |vcl| ==> vcl[close] == post[0];
  }

  // ---------------------------------------------------------------------------
  // Commenting out, byte for byte
  // ---------------------------------------------------------------------------

  /** By how much the text before `k` grows: the matches from `from` on that end there. */
  function Growth(vcl: string, rs: seq<Range>, from: nat, k: nat): int
    requires Fits(rs, |vcl|)
  {
    if rs == [] then 0
    else
      assert Fits(rs[1..], |vcl|);
      Growth(vcl, rs[1..], from, k)
      + if rs[0].start >= from && rs[0].end <= k then
          |Commented(vcl[rs[0].start..rs[0].end])| - (rs[0].end - rs[0].start)
        else 0
  }

  lemma {:induction false} NoGrowthBefore(vcl: string, rs: seq<Range>, from: nat, k: nat)
    requires Fits(rs, |vcl|) && (rs != [] ==> k <= rs[0].start)
    ensures Growth(vcl, rs, from, k) == 0
    decreases rs
  {
    if rs != [] {
      FitsTail(rs, |vcl|);
      StartsInOrder(rs, |vcl|, 0);
      hide Fits, Commented;
      NoGrowthBefore(vcl, rs[1..], from, k);
    }
  }

  /** `w` stands at offset `k` of `s`. */
  predicate Stands(s: string, w: string, k: int) {
    0 <= k && k + |w| <= |s| && s[k..k + |w|] == w
  }

  lemma StandsBehind(a: string, s: string, w: string, k: int)
    requires Stands(s, w, k)
    ensures Stands(a + s, w, |a| + k)
  {
    assert (a + s)[|a| + k..|a| + k + |w|] == s[k..k + |w|];
  }

  lemma SliceStands(vcl: string, lo: nat, hi: nat, k: nat, rest: string)
    requires lo <= k < hi <= |vcl|
    ensures Stands(vcl[lo..hi] + rest, [vcl[k]], k - lo)
  {
    assert (vcl[lo..hi] + rest)[k - lo] == vcl[k];
  }

  /** The stretch up to a late match, the comment for it, and what follows. */
  lemma CommentOutUnfolds(vcl: string, rs: seq<Range>, from: nat, prev: nat)
    requires Fits(rs, |vcl|) && rs != [] && prev <= rs[0].start
    ensures Fits(rs[1..], |vcl|) && rs[0].start < rs[0].end <= |vcl|
    ensures rs[0].start >= from ==>
      CommentOut(vcl, rs, from, prev) ==
      vcl[prev..rs[0].start] + (Commented(vcl[rs[0].start..rs[0].end]) + CommentOut(vcl, rs[1..], from, rs[0].end))
    ensures rs[0].start < from ==> CommentOut(vcl, rs, from, prev) == CommentOut(vcl, rs[1..], from, prev)
  {
    FitsTail(rs, |vcl|);
    StartsInOrder(rs, |vcl|, prev);
    hide Commented, Fits;
  }

  predicate Late(r: Range, from: nat) {
    r.start >= from
  }

  /** Where byte `k` went: to `at`, unless it belongs to a late match; and if a late match
      starts with it, the comment for that match is there. */
  predicate Placed(out: string, vcl: string, rs: seq<Range>, from: nat, k: nat, at: int)
    requires k < |vcl|
  {
    && ((forall r | r in rs && Late(r, from) :: !(r.start <= k < r.end)) ==> Stands(out, [vcl[k]], at))
    && (forall r | r in rs && Late(r, from) && r.start == k ::
          k < r.end <= |vcl| && Stands(out, Commented(vcl[k..r.end]), at))
  }

  lemma PlacedBehind(a: string, out: string, vcl: string, rs: seq<Range>, from: nat, k: nat, at: int)
    requires k < |vcl| && Placed(out, vcl, rs, from, k, at)
    ensures Placed(a + out, vcl, rs, from, k, |a| + at)
  {
    hide Stands, Commented;
    forall w | Stands(out, w, at) ensures Stands(a + out, w, |a| + at) {
      StandsBehind(a, out, w, at);
    }
  }

  /** A match that is early, or ends before `k`, does not matter for where `k` went. */
  lemma PlacedWithout(out: string, vcl: string, rs: seq<Range>, from: nat, k: nat, at: int)
    requires rs != [] && k < |vcl| && Placed(out, vcl, rs[1..], from, k, at)
    requires !Late(rs[0], from) || rs[0].start < rs[0].end <= k
    ensures Placed(out, vcl, rs, from, k, at)
  {
    hide Stands, Commented;
    assert rs == [rs[0]] + rs[1..];
    assert forall r | r in rs[1..] :: r in rs;
  }

  /** Up to the end of the first match, if that is late. */
  lemma PlacedBefore(vcl: string, rs: seq<Range>, from: nat, prev: nat, k: nat, more: string)
    requires Fits(rs, |vcl|) && rs != [] && Late(rs[0], from) && prev <= rs[0].start && prev <= k < rs[0].end
    ensures rs[0].start < rs[0].end <= |vcl|
    ensures Placed(vcl[prev..rs[0].start] + (Commented(vcl[rs[0].start..rs[0].end]) + more), vcl, rs, from, k, k - prev)
  {
    hide Fits, Commented;
    StartsInOrder(rs, |vcl|, prev);
    RestIsLater(rs, |vcl|, k);
    var r0 := rs[0];
    var head, comment := vcl[prev..r0.start], Commented(vcl[r0.start..r0.end]);
    assert rs == [r0] + rs[1..];
    if k < r0.start {
      SliceStands(vcl, prev, r0.start, k, comment + more);
    } else if k == r0.start {
      assert (head + (comment + more))[|head|..|head| + |comment|] == comment;
    }
  }

  /**
   * Every byte outside the late matches is still there, moved by what the late matches
   * before it grew; and where each late match was, its comment is.
   */
  lemma {:induction false} CommentOutAt(vcl: string, rs: seq<Range>, from: nat, prev: nat, k: nat)
    requires Fits(rs, |vcl|) && prev <= k < |vcl| && (rs != [] ==> prev <= rs[0].start)
    ensures Placed(CommentOut(vcl, rs, from, prev), vcl, rs, from, k, k - prev + Growth(vcl, rs, from, k))
    decreases rs
  {
    hide Placed, Commented, Fits, Stands, CommentOut, Growth;
    if rs == [] {
      NothingCommentedOut(vcl, from, prev, k);
    } else {
      CommentOutUnfolds(vcl, rs, from, prev);
      GrowthUnfolds(vcl, rs, from, k);
      StartsInOrder(rs, |vcl|, prev);
      if rs[0].start < from {
        CommentOutAt(vcl, rs[1..], from, prev, k);
        PlacedWithout(CommentOut(vcl, rs, from, prev), vcl, rs, from, k, k - prev + Growth(vcl, rs, from, k));
      } else if k < rs[0].end {
        PlacedBefore(vcl, rs, from, prev, k, CommentOut(vcl, rs[1..], from, rs[0].end));
        RestIsLater(rs, |vcl|, k);
        NoGrowthBefore(vcl, rs[1..], from, k);
      } else {
        CommentOutAt(vcl, rs[1..], from, rs[0].end, k);
        PlacedAfter(vcl, rs, from, prev, k);
      }
    }
  }

  lemma NothingCommentedOut(vcl: string, from: nat, prev: nat, k: nat)
    requires prev <= k < |vcl|
    ensures Placed(CommentOut(vcl, [], from, prev), vcl, [], from, k, k - prev + Growth(vcl, [], from, k))
  {
    assert vcl[prev..] + "" == vcl[prev..] && vcl[prev..|vcl|] == vcl[prev..];
    SliceStands(vcl, prev, |vcl|, k, "");
    PlacedAlone(vcl[prev..], vcl, from, k, k - prev);
  }

  lemma GrowthUnfolds(vcl: string, rs: seq<Range>, from: nat, k: nat)
    requires Fits(rs, |vcl|) && rs != []
    ensures Fits(rs[1..], |vcl|) && rs[0].start < rs[0].end <= |vcl|
    ensures Growth(vcl, rs, from, k) == Growth(vcl, rs[1..], from, k)
      + if rs[0].start >= from && rs[0].end <= k then
          |Commented(vcl[rs[0].start..rs[0].end])| - (rs[0].end - rs[0].start)
        else 0
  {
    FitsTail(rs, |vcl|);
    StartsInOrder(rs, |vcl|, 0);
    hide Fits, Commented;
  }

  /** Behind the end of the first match, if that is late. */
  lemma PlacedAfter(vcl: string, rs: seq<Range>, from: nat, prev: nat, k: nat)
    requires Fits(rs, |vcl|) && rs != [] && Fits(rs[1..], |vcl|)
    requires Late(rs[0], from) && prev <= rs[0].start < rs[0].end <= k < |vcl|
    requires |rs| > 1 ==> rs[0].end <= rs[1..][0].start
    requires Placed(CommentOut(vcl, rs[1..], from, rs[0].end), vcl, rs[1..], from, k,
                    k - rs[0].end + Growth(vcl, rs[1..], from, k))
    ensures Placed(CommentOut(vcl, rs, from, prev), vcl, rs, from, k, k - prev + Growth(vcl, rs, from, k))
  {
    hide Placed, Commented, Fits, Stands, CommentOut, Growth;
    CommentOutUnfolds(vcl, rs, from, prev);
    GrowthUnfolds(vcl, rs, from, k);
    var head, comment := vcl[prev..rs[0].start], Commented(vcl[rs[0].start..rs[0].end]);
    var more, at := CommentOut(vcl, rs[1..], from, rs[0].end), k - rs[0].end + Growth(vcl, rs[1..], from, k);
    PlacedBehind(comment, more, vcl, rs[1..], from, k, at);
    PlacedBehind(head, comment + more, vcl, rs[1..], from, k, |comment| + at);
    assert |head| + (|comment| + at) == k - prev + Growth(vcl, rs, from, k);
    PlacedWithout(CommentOut(vcl, rs, from, prev), vcl, rs, from, k, k - prev + Growth(vcl, rs, from, k));
  }

  lemma PlacedAlone(out: string, vcl: string, from: nat, k: nat, at: int)
    requires k < |vcl| && Stands(out, [vcl[k]], at)
    ensures Placed(out, vcl, [], from, k, at)
  {}

  lemma RestIsLater(rs: seq<Range>, n: nat, k: nat)
    requires Fits(rs, n) && rs != [] && k < rs[0].end
    ensures |rs| > 1 ==> k < rs[1..][0].start
    ensures forall r | r in rs[1..] :: k < r.start
  {
    forall r | r in rs[1..] ensures k < r.start {
      var i :| 0 <= i < |rs[1..]| && rs[1..][i] == r;
      var j := i + 1;
      assert rs[j] == r;
    }
  }

  /** Nothing else is in the output. */
  lemma {:induction false} CommentOutLength(vcl: string, rs: seq<Range>, from: nat, prev: nat)
    requires Fits(rs, |vcl|) && prev <= |vcl| && (rs != [] ==> prev <= rs[0].start)
    ensures |CommentOut(vcl, rs, from, prev)| == |vcl| - prev + Growth(vcl, rs, from, |vcl|)
    decreases rs
  {
    if rs != [] {
      CommentOutUnfolds(vcl, rs, from, prev);
      StartsInOrder(rs, |vcl|, prev);
      hide Commented, Fits, CommentOut;
      CommentOutLength(vcl, rs[1..], from, if rs[0].start < from then prev else rs[0].end);
    }
  }

  /**
   * Commenting out late imports, for the whole text: every byte that belongs to no late
   * import is kept, in order; each late import gives way to its comment; nothing else is
   * added.
   */
  lemma LateImportsAreCommentedOut(vcl: string, syn: Syntax, from: nat, k: nat)
    requires Regular(syn) && k < |vcl|
    ensures var c, rs := WithoutLateImports(vcl, syn, from), Imports(vcl, syn);
      && Fits(rs, |vcl|)
      && |c| == |vcl| + Growth(vcl, rs, from, |vcl|)
      && Placed(c, vcl, rs, from, k, k + Growth(vcl, rs, from, k))
  {
    hide Regular, Imports, CommentOut, Growth, Placed;
    ImportsFit(vcl, syn);
    CommentOutAt(vcl, Imports(vcl, syn), from, 0, k);
    CommentOutLength(vcl, Imports(vcl, syn), from, 0);
    hide Fits;
  }
}
