/** The scanner skips every RFC 8259 value exactly, and refuses exactly the texts nested
    deeper than its limit. */
module JsonExact {
  import opened Basics
  import opened JsonText
  import opened JsonScan

  // ---------------------------------------------------------------------------
  // Numbers
  // ---------------------------------------------------------------------------

  lemma {:induction false} SkipDigitsOver(ds: string, s: string)
    requires Digits(ds) && (s == "" || !IsDigit(s[0]))
    ensures SkipDigits(ds + s) == s
  {
    if ds == "" {
      assert ds + s == s;
    } else {
      assert (ds + s)[1..] == ds[1..] + s;
      assert ds[0] in ds && forall c | c in ds[1..] :: c in ds;
      SkipDigitsOver(ds[1..], s);
    }
  }

  predicate NoDigitNext(s: string) {
    s == "" || !IsDigit(s[0])
  }

  lemma ExponentExact(n: Number, post: string)
    requires WellFormedNumber(n) && Delimited(post)
    ensures SkipExponent(ExponentText(n) + post) == post
    ensures NoDigitNext(ExponentText(n) + post) && !StartsWith(ExponentText(n) + post, '.')
  {
    hide SkipDigits;
    match n.exponent
    case None => assert ExponentText(n) + post == post;
    case Some((mark, ds)) =>
      var s := ExponentText(n) + post;
      ConcatAssociates(mark, ds, post);
      assert IsDigit(ds[0]) by { assert ds[0] in ds; }
      assert mark[0] == 'e' || mark[0] == 'E';
      if |mark| == 1 {
        assert s[1..] == ds + post;
      } else {
        assert s[1..][0] == mark[1] && s[1..][1..] == ds + post;
      }
      SkipDigitsOver(ds, post);
  }

  lemma FractionExact(n: Number, rest: string)
    requires WellFormedNumber(n) && NoDigitNext(rest) && !StartsWith(rest, '.')
    ensures SkipFraction(FractionText(n) + rest) == rest && NoDigitNext(FractionText(n) + rest)
  {
    hide SkipDigits;
    match n.fraction
    case None => assert FractionText(n) + rest == rest;
    case Some(ds) =>
      assert (FractionText(n) + rest)[1..] == ds + rest;
      SkipDigitsOver(ds, rest);
  }

  lemma NumberExact(n: Number, post: string)
    requires WellFormedNumber(n) && Delimited(post)
    ensures ScanNumber(NumberText(n) + post) == Some(post)
  {
    hide SkipDigits, SkipFraction, SkipExponent, FractionText, ExponentText;
    var tail := ExponentText(n) + post;
    ExponentExact(n, post);
    FractionExact(n, tail);
    SkipDigitsOver(n.whole, FractionText(n) + tail);
    var body := n.whole + (FractionText(n) + tail);
    ConcatAssociates(FractionText(n), ExponentText(n), post);
    ConcatAssociates(n.whole, FractionText(n) + ExponentText(n), post);
    assert n.whole[0] in n.whole;
    assert body[0] == n.whole[0];
    var s := NumberText(n) + post;
    if n.minus {
      assert s[0] == '-' && s[1..] == body;
    } else {
      assert s == body;
    }
  }

  // ---------------------------------------------------------------------------
  // Values
  // ---------------------------------------------------------------------------

  /** First bytes of values: none of them is whitespace or closes anything. */
  predicate OpensValue(c: char) {
    IsDigit(c) || c in "-\"{[tfn"
  }

  lemma PrintOpens(v: Json)
    requires WellFormed(v)
    ensures Print(v) != "" && OpensValue(Print(v)[0])
    ensures Print(v)[0] == '"' <==> v.Str?
    ensures Print(v)[0] == '{' <==> v.Obj?
    ensures Print(v)[0] == '[' <==> v.Arr?
    ensures Print(v)[0] in "tfn" <==> v.Word?
  {
    hide PrintItems, PrintMembers, Text, FractionText, ExponentText;
    if v.Num? {
      assert v.number.whole[0] in v.number.whole;
    }
  }

  /** What SkipValue does at the first byte of a scalar. */
  lemma ScalarIsDispatched(v: Json, ws: string, post: string, d: nat)
    requires WellFormed(v) && Blank(ws) && (v.Word? || v.Num? || v.Str?)
    ensures var s := Print(v) + post;
      && (v.Str? && ScanString(s).Some? ==> SkipValue(ws + s, d) == Some(ScanString(s).value.1))
      && (v.Num? ==> SkipValue(ws + s, d) == ScanNumber(s))
      && (v.Word? ==> SkipValue(ws + s, d) == SkipLiteral(s, v.text))
  {
    hide SkipWs, ScanString, ScanNumber, SkipLiteral, SkipObject, SkipArray, Quoted, NumberText;
    var s := Print(v) + post;
    PrintOpens(v);
    SkipWsOver(ws, s);
    if v.Word? {
      assert s[0] == v.text[0];
    }
  }

  lemma ScalarExact(v: Json, ws: string, post: string, d: nat)
    requires WellFormed(v) && Blank(ws) && Delimited(post) && (v.Word? || v.Num? || v.Str?)
    ensures SkipValue(ws + (Print(v) + post), d) == Some(post)
  {
    ScalarIsDispatched(v, ws, post, d);
    hide SkipValue, ScanString, ScanNumber, Quoted, NumberText;
    match v
    case Word(t) => assert (t + post)[|t|..] == post;
    case Num(n) => NumberExact(n, post);
    case Str(us) => ScanStringReadsMeaning(us, post);
  }

  lemma SkipWsTwice(s: string)
    ensures SkipWs(SkipWs(s)) == SkipWs(s)
    ensures SkipWs(s) == "" || !IsWs(SkipWs(s)[0])
  {}

  /** The result of skipping a value of nesting `deep` with `d` levels open. */
  function Skipped(deep: nat, d: nat, post: string): Option<string> {
    if d + deep <= MAX_NESTING_DEPTH then Some(post) else None
  }

  /**
   * The scanner consumes exactly the value: whatever delimiter and text follow are left
   * untouched, and the only well-formed values it refuses are those that would open more
   * than MAX_NESTING_DEPTH levels.
   */
  lemma {:induction false} SkipExact(v: Json, ws: string, post: string, d: nat)
    requires WellFormed(v) && Blank(ws) && Delimited(post) && d <= MAX_NESTING_DEPTH
    ensures SkipValue(ws + (Print(v) + post), d) == Skipped(Depth(v), d, post)
    decreases v, 1
  {
    hide SkipValue, SkipItems, SkipMembers, PrintItems, PrintMembers, Print, Blank, Delimited;
    match v
    case Arr(_, items) =>
      ArrayIsSkipped(v, ws, post, d);
      if d + 1 <= MAX_NESTING_DEPTH && items.Item? {
        ItemsExact(items, post, d + 1);
      }
    case Obj(_, members) =>
      ObjectIsSkipped(v, ws, post, d);
      if d + 1 <= MAX_NESTING_DEPTH && members.Member? {
        MembersExact(members, post, d + 1);
      }
    case _ =>
      ScalarExact(v, ws, post, d);
  }

  lemma ArrayIsSkipped(v: Json, ws: string, post: string, d: nat)
    requires WellFormed(v) && v.Arr? && Blank(ws)
    ensures SkipValue(ws + (Print(v) + post), d) ==
            if d + 1 > MAX_NESTING_DEPTH then None
            else if v.items.NoItems? then Some(post)
            else SkipItems(PrintItems(v.items) + ("]" + post), d + 1)
  {
    hide SkipWs, SkipItems, PrintItems;
    var s := Print(v) + post;
    SkipWsOver(ws, s);
    var inner := s[1..];
    if v.items.NoItems? {
      assert inner == v.ws + ("]" + post);
      SkipWsOver(v.ws, "]" + post);
      assert ("]" + post)[1..] == post;
    } else {
      assert inner == PrintItems(v.items) + ("]" + post);
      ItemsStart(v.items, "]" + post, d + 1);
    }
  }

  lemma ItemsStart(items: Items, tail: string, d: nat)
    requires WellFormedItems(items) && items.Item?
    ensures var s := PrintItems(items) + tail;
      && !StartsWith(SkipWs(s), ']')
      && SkipItems(SkipWs(s), d) == SkipItems(s, d)
  {
    hide SkipWs, Print;
    var s := PrintItems(items) + tail;
    PrintOpens(items.value);
    var rest := s[|items.before|..];
    assert s == items.before + rest && rest[0] == Print(items.value)[0];
    SkipWsOver(items.before, rest);
    SkipWsTwice(s);
    SkipValueIgnoresWs(s, d);
    hide SkipValue;
  }

  lemma SkipValueIgnoresWs(s: string, d: nat)
    ensures SkipValue(SkipWs(s), d) == SkipValue(s, d)
  {
    hide SkipWs, SkipObject, SkipArray, ScanString, ScanNumber;
    SkipWsTwice(s);
  }

  lemma {:induction false} ItemsExact(items: Items, post: string, d: nat)
    requires WellFormedItems(items) && items.Item? && d <= MAX_NESTING_DEPTH
    ensures SkipItems(PrintItems(items) + ("]" + post), d) == Skipped(DepthOfItems(items), d, post)
    decreases items, 0
  {
    hide SkipValue, SkipItems, PrintItems, SkipWs;
    var next := if items.rest.NoItems? then "]" + post else "," + (PrintItems(items.rest) + ("]" + post));
    ItemUnfolds(items, post, next, d);
    Separated(items.after, next);
    SkipExact(items.value, items.before, items.after + next, d);
    SkipWsOver(items.after, next);
    if items.rest.NoItems? {
      assert next[1..] == post;
    } else {
      assert next[1..] == PrintItems(items.rest) + ("]" + post);
      ItemsExact(items.rest, post, d);
    }
  }

  lemma Separated(after: string, next: string)
    requires Blank(after) && next != "" && next[0] in ",]}"
    ensures Delimited(after + next)
  {
    if after == "" {
      assert after + next == next;
    } else {
      assert after[0] in after;
    }
  }

  lemma ItemUnfolds(items: Items, post: string, next: string, d: nat)
    requires items.Item?
    requires next == if items.rest.NoItems? then "]" + post else "," + (PrintItems(items.rest) + ("]" + post))
    ensures SkipItems(PrintItems(items) + ("]" + post), d) ==
            var r := SkipValue(items.before + (Print(items.value) + (items.after + next)), d);
            if r.None? then None
            else
              var t := SkipWs(r.value);
              if StartsWith(t, ']') then Some(t[1..])
              else if StartsWith(t, ',') then SkipItems(t[1..], d)
              else None
  {
    hide SkipValue, SkipWs, Print;
    var sep := if items.rest.NoItems? then "" else "," + PrintItems(items.rest);
    var close := "]" + post;
    assert next == sep + close;
    RegroupsThree(items.before, Print(items.value), items.after, sep, close);
  }

  lemma RegroupsThree(a: string, b: string, c: string, d: string, e: string)
    ensures a + (b + (c + d)) + e == a + (b + (c + (d + e)))
  {
    ConcatAssociates(a, b + (c + d), e);
    ConcatAssociates(b, c + d, e);
    ConcatAssociates(c, d, e);
  }

  lemma ObjectIsSkipped(v: Json, ws: string, post: string, d: nat)
    requires WellFormed(v) && v.Obj? && Blank(ws)
    ensures SkipValue(ws + (Print(v) + post), d) ==
            if d + 1 > MAX_NESTING_DEPTH then None
            else if v.members.NoMembers? then Some(post)
            else SkipMembers(PrintMembers(v.members) + ("}" + post), d + 1)
  {
    hide SkipWs, SkipMembers, PrintMembers;
    var s := Print(v) + post;
    SkipWsOver(ws, s);
    var inner := s[1..];
    if v.members.NoMembers? {
      assert inner == v.ws + ("}" + post);
      SkipWsOver(v.ws, "}" + post);
      assert ("}" + post)[1..] == post;
    } else {
      assert inner == PrintMembers(v.members) + ("}" + post);
      MembersStart(v.members, "}" + post, d + 1);
    }
  }

  lemma MembersStart(members: Members, tail: string, d: nat)
    requires WellFormedMembers(members) && members.Member?
    ensures var s := PrintMembers(members) + tail;
      && !StartsWith(SkipWs(s), '}')
      && SkipMembers(SkipWs(s), d) == SkipMembers(s, d)
  {
    hide SkipWs, Print, Text;
    var s := PrintMembers(members) + tail;
    var rest := s[|members.before|..];
    assert s == members.before + rest && rest[0] == '"';
    SkipWsOver(members.before, rest);
    SkipWsTwice(s);
    hide SkipValue, ScanString;
  }

  lemma {:induction false} MembersExact(members: Members, post: string, d: nat)
    requires WellFormedMembers(members) && members.Member? && d <= MAX_NESTING_DEPTH
    ensures SkipMembers(PrintMembers(members) + ("}" + post), d) == Skipped(DepthOfMembers(members), d, post)
    decreases members, 0
  {
    hide SkipValue, SkipMembers, PrintMembers, SkipWs;
    var next := if members.rest.NoMembers? then "}" + post else "," + (PrintMembers(members.rest) + ("}" + post));
    MemberUnfolds(members, post, next, d);
    Separated(members.after, next);
    SkipExact(members.value, members.gap, members.after + next, d);
    SkipWsOver(members.after, next);
    if members.rest.NoMembers? {
      assert next[1..] == post;
    } else {
      assert next[1..] == PrintMembers(members.rest) + ("}" + post);
      MembersExact(members.rest, post, d);
    }
  }

  /** Reading up to the colon of a member, whatever follows it. */
  lemma KeyAndColon(before: string, key: seq<Spelled>, colon: string, tail: string)
    requires Blank(before) && AllWellSpelled(key) && Blank(colon)
    ensures var s := before + (Quoted(key) + (colon + (":" + tail)));
      && SkipWs(s) == Quoted(key) + (colon + (":" + tail))
      && ScanString(SkipWs(s)) == Some((Meaning(key), colon + (":" + tail)))
      && Expect(colon + (":" + tail), ':') == Some(tail)
  {
    hide SkipWs, ScanString, Text, Meaning;
    var q := Quoted(key) + (colon + (":" + tail));
    assert q[0] == '"';
    SkipWsOver(before, q);
    ScanStringReadsMeaning(key, colon + (":" + tail));
    SkipWsOver(colon, ":" + tail);
    assert (":" + tail)[1..] == tail;
  }

  lemma MemberUnfolds(members: Members, post: string, next: string, d: nat)
    requires WellFormedMembers(members) && members.Member?
    requires next == if members.rest.NoMembers? then "}" + post else "," + (PrintMembers(members.rest) + ("}" + post))
    ensures SkipMembers(PrintMembers(members) + ("}" + post), d) ==
            var r := SkipValue(members.gap + (Print(members.value) + (members.after + next)), d);
            if r.None? then None
            else
              var t := SkipWs(r.value);
              if StartsWith(t, '}') then Some(t[1..])
              else if StartsWith(t, ',') then SkipMembers(t[1..], d)
              else None
  {
    hide SkipValue, SkipWs, ScanString, Expect, Quoted, Meaning;
    MemberRegroups(members, post, next);
    hide PrintMembers, Print;
    KeyAndColon(members.before, members.key, members.colon,
                members.gap + (Print(members.value) + (members.after + next)));
  }

  lemma MemberRegroups(members: Members, post: string, next: string)
    requires members.Member?
    requires next == if members.rest.NoMembers? then "}" + post else "," + (PrintMembers(members.rest) + ("}" + post))
    ensures PrintMembers(members) + ("}" + post) ==
            members.before + (Quoted(members.key) + (members.colon + (":" +
              (members.gap + (Print(members.value) + (members.after + next))))))
  {
    hide Print, Quoted;
    var sep := if members.rest.NoMembers? then "" else "," + PrintMembers(members.rest);
    var close := "}" + post;
    assert next == sep + close;
    var value := members.gap + (Print(members.value) + (members.after + sep));
    RegroupsThree(members.gap, Print(members.value), members.after, sep, close);
    ConcatAssociates(":", value, close);
    RegroupsThree(members.before, Quoted(members.key), members.colon, ":" + value, close);
  }
}
