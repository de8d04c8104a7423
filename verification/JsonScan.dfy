/** What the hand-written scanner computes, as functions from the unread text to what is
    left of it, and that it reads every RFC 8259 text exactly. */
module JsonScan {
  import opened Basics
  import opened JsonText

  const MAX_NESTING_DEPTH := 1000

  function SkipWs(s: string): (t: string)
    ensures |t| <= |s|
  {
    if s != "" && IsWs(s[0]) then SkipWs(s[1..]) else s
  }

  function SkipDigits(s: string): (t: string)
    ensures |t| <= |s|
  {
    if s != "" && IsDigit(s[0]) then SkipDigits(s[1..]) else s
  }

  function Expect(s: string, b: char): (t: Option<string>)
    ensures t.Some? ==> |t.value| < |s|
  {
    var u := SkipWs(s);
    if u != "" && u[0] == b then Some(u[1..]) else None
  }

  function StartsWith(s: string, b: char): bool {
    s != "" && s[0] == b
  }

  // ---------------------------------------------------------------------------
  // Strings
  // ---------------------------------------------------------------------------

  /** Length of the escape sequence `s` starts with, backslash included; 0 if malformed. */
  function EscapeLength(s: string): (n: nat)
    requires StartsWith(s, '\\')
    ensures n <= |s|
  {
    if |s| < 2 then 0
    else if s[1] != 'u' then 2
    else if |s| >= 6 && HexDigits(s[2..6]) then 6
    else 0
  }

  /** Splits at the closing quote: the raw text before it and what follows. */
  function StringBody(s: string): (r: Option<(string, string)>)
    ensures r.Some? ==> |r.value.1| < |s|
  {
    if s == "" then None
    else if s[0] == '"' then Some(("", s[1..]))
    else
      var n := if s[0] == '\\' then EscapeLength(s) else 1;
      if n == 0 then None
      else
        var r := StringBody(s[n..]);
        if r.None? then None else Some((s[..n] + r.value.0, r.value.1))
  }

  /** Length of raw text one unescaping step consumes, and the bytes it writes. */
  function UnescapeStep(raw: string): (r: (nat, string))
    requires raw != ""
    ensures 0 < r.0 <= |raw|
  {
    if raw[0] != '\\' then (1, [raw[0]])
    else if |raw| == 1 then (1, "")
    else if raw[1] != 'u' then (2, [ShortMeaning(raw[1])])
    else if |raw| < 6 then (2, ['u'])
    else if !HexDigits(raw[2..6]) then (6, Utf8(0xFFFD))
    else
      var r1 := Hex4(raw[2..6]);
      if HighSurrogate(r1) && |raw| >= 12 && raw[6] == '\\' && raw[7] == 'u'
         && HexDigits(raw[8..12]) && LowSurrogate(Hex4(raw[8..12])) then
        (12, Utf8(0x10000 + (r1 - 0xD800) * 0x400 + (Hex4(raw[8..12]) - 0xDC00)))
      else (6, Utf8(r1))
  }

  function Unescape(raw: string): string {
    if raw == "" then "" else
      var (n, out) := UnescapeStep(raw);
      out + Unescape(raw[n..])
  }

  /** Reads a quoted string: its content and what follows. */
  function ScanString(s: string): (r: Option<(string, string)>)
    ensures r.Some? ==> |r.value.1| < |s|
  {
    if !StartsWith(s, '"') then None
    else
      var r := StringBody(s[1..]);
      if r.None? then None
      else Some((if '\\' in r.value.0 then Unescape(r.value.0) else r.value.0, r.value.1))
  }

  // ---------------------------------------------------------------------------
  // Numbers and values
  // ---------------------------------------------------------------------------

  function SkipFraction(s: string): (t: string)
    ensures |t| <= |s|
  {
    if StartsWith(s, '.') then SkipDigits(s[1..]) else s
  }

  function SkipExponent(s: string): (t: string)
    ensures |t| <= |s|
  {
    if StartsWith(s, 'e') || StartsWith(s, 'E') then
      var t := s[1..];
      SkipDigits(if StartsWith(t, '+') || StartsWith(t, '-') then t[1..] else t)
    else s
  }

  function ScanNumber(s: string): (r: Option<string>)
    ensures r.Some? ==> |r.value| < |s|
  {
    var t := if StartsWith(s, '-') then s[1..] else s;
    if t == "" then None
    else
      var u := SkipExponent(SkipFraction(SkipDigits(t)));
      if |u| == |s| then None else Some(u)
  }

  function SkipLiteral(s: string, lit: string): (r: Option<string>)
    ensures r.Some? ==> |r.value| + |lit| == |s|
  {
    if lit <= s then Some(s[|lit|..]) else None
  }

  /** Skips one value; `depth` counts the objects and arrays already open. */
  function SkipValue(s: string, depth: nat): (r: Option<string>)
    ensures r.Some? ==> |r.value| < |s|
    decreases |s|, 2
  {
    var t := SkipWs(s);
    if t == "" then None
    else if t[0] == '"' then
      var r := ScanString(t);
      if r.None? then None else Some(r.value.1)
    else if t[0] == '{' then SkipObject(t, depth)
    else if t[0] == '[' then SkipArray(t, depth)
    else if t[0] == 't' then SkipLiteral(t, "true")
    else if t[0] == 'f' then SkipLiteral(t, "false")
    else if t[0] == 'n' then SkipLiteral(t, "null")
    else ScanNumber(t)
  }

  function SkipObject(s: string, depth: nat): (r: Option<string>)
    requires s != ""
    ensures r.Some? ==> |r.value| < |s|
    decreases |s|, 1
  {
    if depth + 1 > MAX_NESTING_DEPTH then None
    else
      var t := SkipWs(s[1..]);
      if StartsWith(t, '}') then Some(t[1..]) else SkipMembers(t, depth + 1)
  }

  function SkipMembers(s: string, depth: nat): (r: Option<string>)
    ensures r.Some? ==> |r.value| < |s|
    decreases |s|, 3
  {
    var k := ScanString(SkipWs(s));
    if k.None? then None
    else
      var c := Expect(k.value.1, ':');
      if c.None? then None
      else
        var v := SkipValue(c.value, depth);
        if v.None? then None
        else
          var t := SkipWs(v.value);
          if StartsWith(t, '}') then Some(t[1..])
          else if StartsWith(t, ',') then SkipMembers(t[1..], depth)
          else None
  }

  function SkipArray(s: string, depth: nat): (r: Option<string>)
    requires s != ""
    ensures r.Some? ==> |r.value| < |s|
    decreases |s|, 1
  {
    if depth + 1 > MAX_NESTING_DEPTH then None
    else
      var t := SkipWs(s[1..]);
      if StartsWith(t, ']') then Some(t[1..]) else SkipItems(t, depth + 1)
  }

  function SkipItems(s: string, depth: nat): (r: Option<string>)
    ensures r.Some? ==> |r.value| < |s|
    decreases |s|, 3
  {
    var v := SkipValue(s, depth);
    if v.None? then None
    else
      var t := SkipWs(v.value);
      if StartsWith(t, ']') then Some(t[1..])
      else if StartsWith(t, ',') then SkipItems(t[1..], depth)
      else None
  }

  // ---------------------------------------------------------------------------
  // Strings are read back exactly
  // ---------------------------------------------------------------------------

  lemma {:induction false} SkipWsOver(ws: string, s: string)
    requires Blank(ws) && (s == "" || !IsWs(s[0]))
    ensures SkipWs(ws + s) == s
  {
    if ws == "" {
      assert ws + s == s;
    } else {
      assert (ws + s)[1..] == ws[1..] + s;
      assert ws[0] in ws && forall c | c in ws[1..] :: c in ws;
      SkipWsOver(ws[1..], s);
    }
  }

  lemma UnitIsEscape(u: Spelled, rest: string)
    requires WellSpelled(u)
    ensures var s := TextOf(u) + rest;
      && s != "" && s[0] != '"'
      && match u
         case Plain(_) => s[0] != '\\' && s[..1] == TextOf(u) && s[1..] == rest
         case Short(_) => s[0] == '\\' && EscapeLength(s) == 2 && s[..2] == TextOf(u) && s[2..] == rest
         case Hex(_) => s[0] == '\\' && EscapeLength(s) == 6 && s[..6] == TextOf(u) && s[6..] == rest
         case Pair(h, l) => s[0] == '\\' && EscapeLength(s) == 6 && s[..6] == "\\u" + h && s[6..] == TextOf(Hex(l)) + rest
  {
    var s := TextOf(u) + rest;
    match u
    case Hex(d) => assert s[2..6] == d;
    case Pair(h, l) => assert s[2..6] == h;
    case _ =>
  }

  /** The closing quote is found exactly where the text of the string ends. */
  lemma {:induction false} BodyIsText(us: seq<Spelled>, post: string)
    requires AllWellSpelled(us)
    ensures StringBody(Text(us) + ("\"" + post)) == Some((Text(us), post))
    decreases us
  {
    var tail := "\"" + post;
    if us == [] {
      assert "" + tail == tail && tail[1..] == post;
    } else {
      hide TextOf, EscapeLength, WellSpelled;
      BodyIsText(us[1..], post);
      UnitBody(us[0], Text(us[1..]) + tail, Text(us[1..]), post);
      ConcatAssociates(TextOf(us[0]), Text(us[1..]), tail);
    }
  }

  lemma UnitBody(u: Spelled, rest: string, raw: string, post: string)
    requires WellSpelled(u) && StringBody(rest) == Some((raw, post))
    ensures StringBody(TextOf(u) + rest) == Some((TextOf(u) + raw, post))
  {
    UnitIsEscape(u, rest);
    if u.Pair? {
      UnitIsLow(u.lo, rest);
      var s := TextOf(u) + rest;
      assert StringBody(s[6..]) == Some((TextOf(Hex(u.lo)) + raw, post));
      ConcatAssociates("\\u" + u.hi, "\\u" + u.lo, raw);
    }
  }

  lemma UnitIsLow(l: string, rest: string)
    requires HexDigits(l)
    ensures var s := TextOf(Hex(l)) + rest;
            s[0] == '\\' && EscapeLength(s) == 6 && s[..6] == TextOf(Hex(l)) && s[6..] == rest
  {
    var s := TextOf(Hex(l)) + rest;
    assert s[2..6] == l;
  }

  /** Unescaping the text of any spelled string gives its meaning. */
  lemma {:induction false} UnescapeIsMeaning(us: seq<Spelled>)
    requires AllWellSpelled(us)
    ensures Unescape(Text(us)) == Meaning(us)
    decreases us
  {
    if us != [] {
      hide TextOf, MeaningOf, UnescapeStep, WellSpelled;
      UnescapeIsMeaning(us[1..]);
      UnescapeUnit(us[0], Text(us[1..]));
    }
  }

  lemma UnescapeUnit(u: Spelled, rest: string)
    requires WellSpelled(u)
    ensures var s := TextOf(u) + rest;
            s != "" && UnescapeStep(s) == (|TextOf(u)|, MeaningOf(u)) && s[|TextOf(u)|..] == rest
  {
    var s := TextOf(u) + rest;
    hide Utf8, Hex4;
    match u
    case Hex(d) => assert s[2..6] == d;
    case Pair(h, l) =>
      assert s[2..6] == h && s[8..12] == l;
    case _ =>
  }

  lemma {:induction false} NoEscapeNoChange(raw: string)
    requires '\\' !in raw
    ensures Unescape(raw) == raw
  {
    if raw != "" {
      assert raw[0] in raw && forall c | c in raw[1..] :: c in raw;
      NoEscapeNoChange(raw[1..]);
      assert raw == [raw[0]] + raw[1..];
    }
  }

  /** Scanning a quoted string returns what the string means, however it is spelled. */
  lemma ScanStringReadsMeaning(us: seq<Spelled>, post: string)
    requires AllWellSpelled(us)
    ensures ScanString(Quoted(us) + post) == Some((Meaning(us), post))
  {
    hide Text, Unescape, StringBody, Meaning;
    var s := Quoted(us) + post;
    assert s[1..] == Text(us) + ("\"" + post);
    BodyIsText(us, post);
    UnescapeIsMeaning(us);
    if '\\' !in Text(us) {
      NoEscapeNoChange(Text(us));
    }
  }

  /** A serialiser's spelling of a byte string: quote, backslash and control characters
      escaped, everything else as it is. */
  function HexDigit(n: nat): char
    requires n < 16
  {
    "0123456789abcdef"[n]
  }

  function Spell(c: char): Spelled {
    if c == '"' || c == '\\' then Short(c)
    else if c == '\n' then Short('n')
    else if c == '\t' then Short('t')
    else if c < ' ' then Hex(['0', '0', HexDigit(c as int / 16), HexDigit(c as int % 16)])
    else Plain(c)
  }

  function Escape(o: string): seq<Spelled> {
    if o == "" then [] else [Spell(o[0])] + Escape(o[1..])
  }

  lemma SpellMeansItself(c: char)
    ensures WellSpelled(Spell(c)) && MeaningOf(Spell(c)) == [c]
  {
    if c < ' ' && c != '\n' && c != '\t' {
      var hi, lo := HexDigit(c as int / 16), HexDigit(c as int % 16);
      assert HexValue(hi) == c as int / 16 && HexValue(lo) == c as int % 16;
      assert Hex4(['0', '0', hi, lo]) == c as int;
      assert Byte(c as int) == c;
    }
  }

  /** Round trip: scanning the escaped form of any byte string returns that string. */
  lemma {:induction false} EscapeRoundTrip(o: string)
    ensures AllWellSpelled(Escape(o)) && Meaning(Escape(o)) == o
  {
    if o != "" {
      hide WellSpelled, MeaningOf, Spell;
      EscapeRoundTrip(o[1..]);
      SpellMeansItself(o[0]);
      assert Escape(o)[1..] == Escape(o[1..]);
    }
  }

  lemma ScanEscapedRoundTrip(o: string, post: string)
    ensures ScanString(Quoted(Escape(o)) + post) == Some((o, post))
  {
    EscapeRoundTrip(o);
    ScanStringReadsMeaning(Escape(o), post);
  }
}
