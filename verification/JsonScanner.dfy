/** The scanner itself: an offset into the data that every method advances, proved to
    compute the functions on the unread text. After a failed call only `depth` is specified. */
module JsonScanner {
  import opened Basics
  import opened JsonText
  import opened JsonScan
  import opened Varnishstat

  /** Decodes the escape sequence at `i`: the bytes it stands for and where it ends. */
  method UnescapeEscape(raw: string, i: nat) returns (out: string, next: nat)
    requires i < |raw| && raw[i] == '\\'
    ensures (next - i, out) == UnescapeStep(raw[i..])
  {
    hide Utf8, Hex4;
    var j := i + 1;
    if j >= |raw| {
      return "", j;
    }
    if raw[j] != 'u' {
      return [ShortMeaning(raw[j])], j + 1;
    }
    if j + 4 >= |raw| {
      return [raw[j]], j + 1;
    }
    assert raw[i..][2..6] == raw[j + 1..j + 5];
    var r1, ok := ParseHex4(raw[j + 1..j + 5]);
    if !ok {
      return Utf8(0xFFFD), j + 5;
    }
    j := j + 4;
    if 0xD800 <= r1 <= 0xDBFF && j + 2 < |raw| && raw[j + 1] == '\\' && raw[j + 2] == 'u' && j + 6 < |raw| {
      assert raw[i..][8..12] == raw[j + 3..j + 7];
      var r2, ok2 := ParseHex4(raw[j + 3..j + 7]);
      if ok2 && 0xDC00 <= r2 <= 0xDFFF {
        return Utf8(0x10000 + (r1 - 0xD800) * 0x400 + (r2 - 0xDC00)), j + 7;
      }
    }
    return Utf8(r1), j + 1;
  }

  /** Decodes an escaped string byte by byte into a builder. */
  method UnescapeJSONString(raw: string) returns (buf: string)
    ensures buf == Unescape(raw)
  {
    hide Unescape;
    buf := "";
    var i := 0;
    assert raw[0..] == raw && "" + Unescape(raw) == Unescape(raw);
    while i < |raw|
      invariant 0 <= i <= |raw|
      invariant buf + Unescape(raw[i..]) == Unescape(raw)
    {
      UnescapeOnce(buf, raw, i);
      if raw[i] != '\\' {
        buf := buf + [raw[i]];
        i := i + 1;
      } else {
        var out, next := UnescapeEscape(raw, i);
        buf := buf + out;
        i := next;
      }
    }
    assert raw[i..] == "";
    UnescapeNothing();
    assert buf + "" == buf;
  }

  lemma UnescapeNothing()
    ensures Unescape("") == ""
  {}

  lemma UnescapeOnce(buf: string, raw: string, i: nat)
    requires i < |raw|
    ensures var (n, out) := UnescapeStep(raw[i..]);
            buf + Unescape(raw[i..]) == buf + out + Unescape(raw[i + n..])
  {
    hide UnescapeStep;
    var (n, out) := UnescapeStep(raw[i..]);
    assert raw[i..][n..] == raw[i + n..];
    ConcatAssociates(buf, out, Unescape(raw[i + n..]));
  }

  /** Four hexadecimal digits, shifted in one at a time. */
  method ParseHex4(b: string) returns (n: nat, ok: bool)
    requires |b| == 4
    ensures ok <==> HexDigits(b)
    ensures ok ==> n == Hex4(b)
  {
    n, ok := 0, true;
    var i := 0;
    while i < 4
      invariant 0 <= i <= 4
      invariant forall j | 0 <= j < i :: IsHex(b[j])
      invariant i == 1 ==> n == HexValue(b[0])
      invariant i == 2 ==> n == 0x10 * HexValue(b[0]) + HexValue(b[1])
      invariant i == 3 ==> n == 0x100 * HexValue(b[0]) + 0x10 * HexValue(b[1]) + HexValue(b[2])
      invariant i == 4 ==> n == Hex4(b)
      invariant i == 0 ==> n == 0
    {
      if !IsHex(b[i]) {
        return 0, false;
      }
      n := 0x10 * n + HexValue(b[i]);
      i := i + 1;
    }
  }

  datatype Separator = Close | Comma | Neither

  class Scanner {
    const data: string
    var pos: nat
    var depth: nat

    ghost predicate Valid()
      reads this
    {
      pos <= |data|
    }

    /** The unread text. */
    ghost function Rest(): string
      reads this
      requires Valid()
    {
      data[pos..]
    }

    constructor (text: string)
      ensures Valid() && data == text && pos == 0 && depth == 0
    {
      data, pos, depth := text, 0, 0;
    }

    method SkipWhitespace()
      requires Valid()
      modifies `pos
      ensures Valid() && Rest() == SkipWs(old(Rest())) && old(pos) <= pos
    {
      while pos < |data|
        invariant old(pos) <= pos <= |data|
        invariant SkipWs(Rest()) == SkipWs(old(Rest()))
      {
        if !IsWs(data[pos]) {
          return;
        }
        assert data[pos..][1..] == data[pos + 1..];
        pos := pos + 1;
      }
    }

    method SkipDigitRun()
      requires Valid()
      modifies `pos
      ensures Valid() && Rest() == SkipDigits(old(Rest())) && old(pos) <= pos
    {
      while pos < |data| && IsDigit(data[pos])
        invariant old(pos) <= pos <= |data|
        invariant SkipDigits(Rest()) == SkipDigits(old(Rest()))
      {
        assert data[pos..][1..] == data[pos + 1..];
        pos := pos + 1;
      }
    }

    method ExpectByte(b: char) returns (ok: bool)
      requires Valid()
      modifies `pos
      ensures Valid() && ok == Expect(old(Rest()), b).Some?
      ensures ok ==> Rest() == Expect(old(Rest()), b).value && old(pos) < pos
    {
      SkipWhitespace();
      if pos >= |data| || data[pos] != b {
        return false;
      }
      assert data[pos..][1..] == data[pos + 1..];
      pos := pos + 1;
      return true;
    }

    /** Behind the backslash; a \u escape must carry four digits. */
    method SkipStringEscape() returns (ok: bool)
      requires Valid() && pos > 0 && data[pos - 1] == '\\'
      modifies `pos
      ensures Valid() && old(pos) <= pos
      ensures var n := EscapeLength(old(data[pos - 1..]));
              ok == (n != 0) && (ok ==> pos == old(pos) - 1 + n)
    {
      ghost var s := data[pos - 1..];
      if pos >= |data| {
        return false;
      }
      if data[pos] == 'u' {
        if pos + 4 >= |data| {
          return false;
        }
        assert s[2..6] == data[pos + 1..pos + 5];
        var j := 1;
        while j <= 4
          invariant 1 <= j <= 5
          invariant forall k | pos < k < pos + j :: IsHex(data[k])
        {
          if !IsHex(data[pos + j]) {
            assert s[2..6][j - 1] == data[pos + j];
            return false;
          }
          j := j + 1;
        }
        pos := pos + 4;
      }
      pos := pos + 1;
      return true;
    }

    /** One byte of a string, or one escape sequence. */
    method PassUnit() returns (ok: bool)
      requires Valid() && pos < |data| && data[pos] != '"'
      modifies `pos
      ensures Valid() && old(pos) < pos
      ensures var n := UnitLength(old(Rest()));
              ok == (n != 0) && (ok ==> pos == old(pos) + n)
      ensures ok && data[old(pos)] != '\\' ==> pos == old(pos) + 1
    {
      if data[pos] == '\\' {
        pos := pos + 1;
        ok := SkipStringEscape();
      } else {
        pos := pos + 1;
        ok := true;
      }
    }

    /** Moves to the closing quote, noticing whether any escape was passed. */
    method FindClosingQuote() returns (ok: bool, hasEscape: bool)
      requires Valid()
      modifies `pos
      ensures Valid() && old(pos) <= pos
      ensures var r := StringBody(old(Rest()));
        && ok == r.Some?
        && (ok ==> pos < |data| && data[pos] == '"' && r.value == (data[old(pos)..pos], data[pos + 1..]))
        && (ok ==> (hasEscape <==> '\\' in data[old(pos)..pos]))
    {
      hide StringBody, UnitLength, Prepend;
      var start := pos;
      ghost var body := StringBody(data[start..]);
      hasEscape := false;
      PrependNothing(body);
      assert data[start..start] == "";
      while pos < |data|
        invariant Valid() && start <= pos
        invariant body == Prepend(data[start..pos], StringBody(data[pos..]))
        invariant hasEscape <==> '\\' in data[start..pos]
        decreases |data| - pos
      {
        ghost var p := pos;
        BodyUnfolds(data, pos);
        if data[pos] == '"' {
          PrependIs(data[start..pos], StringBody(data[pos..]));
          assert data[start..pos] + "" == data[start..pos];
          return true, hasEscape;
        }
        if data[pos] == '\\' {
          hasEscape := true;
        }
        var passed := PassUnit();
        if !passed {
          PrependIs(data[start..p], StringBody(data[p..]));
          return false, hasEscape;
        }
        PrependTwice(data[start..p], data[p..pos], StringBody(data[pos..]));
        assert data[start..pos] == data[start..p] + data[p..pos];
        EscapeSeen(data, p, pos);
      }
      PrependIs(data[start..pos], StringBody(data[pos..]));
      NoBodyAtEnd(data[pos..]);
      return false, hasEscape;
    }

    /** The opening quote must be the current byte. */
    method ScanStringLiteral() returns (ok: bool, text: string)
      requires Valid()
      modifies `pos
      ensures Valid() && ok == ScanString(old(Rest())).Some?
      ensures ok ==> (text, Rest()) == ScanString(old(Rest())).value && old(pos) < pos
    {
      hide StringBody, Unescape;
      if pos >= |data| || data[pos] != '"' {
        return false, "";
      }
      assert data[pos..][1..] == data[pos + 1..];
      pos := pos + 1;
      var start := pos;
      var hasEscape;
      ok, hasEscape := FindClosingQuote();
      if !ok {
        return false, "";
      }
      text := data[start..pos];
      pos := pos + 1;
      if hasEscape {
        text := UnescapeJSONString(text);
      }
    }

    method PassFraction()
      requires Valid()
      modifies `pos
      ensures Valid() && Rest() == SkipFraction(old(Rest())) && old(pos) <= pos
    {
      hide SkipDigits;
      if pos < |data| && data[pos] == '.' {
        assert data[pos..][1..] == data[pos + 1..];
        pos := pos + 1;
        SkipDigitRun();
      }
    }

    method PassExponent()
      requires Valid()
      modifies `pos
      ensures Valid() && Rest() == SkipExponent(old(Rest())) && old(pos) <= pos
    {
      hide SkipDigits;
      if pos < |data| && (data[pos] == 'e' || data[pos] == 'E') {
        assert data[pos..][1..] == data[pos + 1..];
        pos := pos + 1;
        if pos < |data| && (data[pos] == '+' || data[pos] == '-') {
          assert data[pos..][1..] == data[pos + 1..];
          pos := pos + 1;
        }
        SkipDigitRun();
      }
    }

    /** The raw number is the text between the old position and the new one. */
    method ScanNumberLiteral() returns (ok: bool, text: string)
      requires Valid()
      modifies `pos
      ensures Valid() && ok == ScanNumber(old(Rest())).Some?
      ensures ok ==> Rest() == ScanNumber(old(Rest())).value && old(pos) < pos && text == data[old(pos)..pos]
    {
      hide SkipDigits, SkipFraction, SkipExponent;
      var start := pos;
      if pos < |data| && data[pos] == '-' {
        assert data[pos..][1..] == data[pos + 1..];
        pos := pos + 1;
      }
      if pos >= |data| {
        return false, "";
      }
      SkipDigitRun();
      PassFraction();
      PassExponent();
      if pos == start {
        return false, "";
      }
      return true, data[start..pos];
    }

    method SkipLit(lit: string) returns (ok: bool)
      requires Valid()
      modifies `pos
      ensures Valid() && ok == SkipLiteral(old(Rest()), lit).Some?
      ensures ok ==> Rest() == SkipLiteral(old(Rest()), lit).value && old(pos) + |lit| == pos
    {
      LiteralHere(data, pos, lit);
      if pos + |lit| > |data| || data[pos..pos + |lit|] != lit {
        return false;
      }
      pos := pos + |lit|;
      return true;
    }

    /** Behind a value: the closing byte, or a comma and more to come. */
    method NextOrClose(close: char) returns (r: Separator)
      requires Valid() && close != ','
      modifies `pos
      ensures Valid() && old(pos) <= pos
      ensures var t := SkipWs(old(Rest()));
        if StartsWith(t, close) then r == Close && Rest() == t[1..] && old(pos) < pos
        else if StartsWith(t, ',') then r == Comma && Rest() == t[1..] && old(pos) < pos
        else r == Neither
    {
      hide SkipWs;
      SkipWhitespace();
      if pos >= |data| {
        return Neither;
      }
      assert data[pos..][1..] == data[pos + 1..];
      if data[pos] == close {
        pos := pos + 1;
        return Close;
      }
      if data[pos] == ',' {
        pos := pos + 1;
        return Comma;
      }
      return Neither;
    }

    method SkipAnyValue() returns (ok: bool)
      requires Valid()
      modifies `pos, `depth
      ensures Valid() && depth == old(depth)
      ensures ok == SkipValue(old(Rest()), depth).Some?
      ensures ok ==> Rest() == SkipValue(old(Rest()), depth).value && old(pos) < pos
      decreases |data| - pos, 1
    {
      hide SkipWs, ScanString, ScanNumber, SkipObject, SkipArray, SkipLiteral;
      SkipWhitespace();
      if pos >= |data| {
        return false;
      }
      var ch := data[pos];
      if ch == '"' {
        var good, _ := ScanStringLiteral();
        return good;
      } else if ch == '{' {
        ok := SkipWholeObject();
      } else if ch == '[' {
        ok := SkipWholeArray();
      } else if ch == 't' {
        ok := SkipLit("true");
      } else if ch == 'f' {
        ok := SkipLit("false");
      } else if ch == 'n' {
        ok := SkipLit("null");
      } else {
        var good, _ := ScanNumberLiteral();
        return good;
      }
    }

    /** Whether or not it succeeds, the nesting depth is restored. */
    method SkipWholeObject() returns (ok: bool)
      requires Valid() && pos < |data|
      modifies `pos, `depth
      ensures Valid() && depth == old(depth)
      ensures ok == SkipObject(old(Rest()), depth).Some?
      ensures ok ==> Rest() == SkipObject(old(Rest()), depth).value && old(pos) < pos
      decreases |data| - pos, 0
    {
      hide SkipWs, SkipMembers, SkipMember;
      depth := depth + 1;
      if depth > MAX_NESTING_DEPTH {
        depth := depth - 1;
        return false;
      }
      assert data[pos..][1..] == data[pos + 1..];
      pos := pos + 1;
      SkipWhitespace();
      if pos < |data| && data[pos] == '}' {
        assert data[pos..][1..] == data[pos + 1..];
        pos := pos + 1;
        depth := depth - 1;
        return true;
      }
      ghost var result := SkipMembers(Rest(), depth);
      while true
        invariant Valid() && old(pos) < pos && depth == old(depth) + 1
        invariant SkipMembers(Rest(), depth) == result
        decreases |data| - pos
      {
        MembersOnce(Rest(), depth);
        var good := SkipOneMember();
        if !good {
          depth := depth - 1;
          return false;
        }
        var sep := NextOrClose('}');
        if sep != Comma {
          depth := depth - 1;
          return sep == Close;
        }
      }
    }

    method ReadMemberKey() returns (ok: bool, key: string)
      requires Valid()
      modifies `pos
      ensures Valid() && ok == MemberKey(old(Rest())).Some?
      ensures ok ==> (key, Rest()) == MemberKey(old(Rest())).value && old(pos) < pos
    {
      hide SkipWs, Expect, ScanString;
      SkipWhitespace();
      ok, key := ScanStringLiteral();
      if ok {
        ok := ExpectByte(':');
      }
    }

    method SkipOneMember() returns (ok: bool)
      requires Valid()
      modifies `pos, `depth
      ensures Valid() && depth == old(depth)
      ensures ok == SkipMember(old(Rest()), depth).Some?
      ensures ok ==> Rest() == SkipMember(old(Rest()), depth).value && old(pos) < pos
      decreases |data| - pos, 2
    {
      hide MemberKey, SkipValue;
      var key;
      ok, key := ReadMemberKey();
      if ok {
        ok := SkipAnyValue();
      }
    }

    method SkipWholeArray() returns (ok: bool)
      requires Valid() && pos < |data|
      modifies `pos, `depth
      ensures Valid() && depth == old(depth)
      ensures ok == SkipArray(old(Rest()), depth).Some?
      ensures ok ==> Rest() == SkipArray(old(Rest()), depth).value && old(pos) < pos
      decreases |data| - pos, 0
    {
      hide SkipWs, SkipItems, SkipValue;
      depth := depth + 1;
      if depth > MAX_NESTING_DEPTH {
        depth := depth - 1;
        return false;
      }
      assert data[pos..][1..] == data[pos + 1..];
      pos := pos + 1;
      SkipWhitespace();
      if pos < |data| && data[pos] == ']' {
        assert data[pos..][1..] == data[pos + 1..];
        pos := pos + 1;
        depth := depth - 1;
        return true;
      }
      ghost var result := SkipItems(Rest(), depth);
      while true
        invariant Valid() && old(pos) < pos && depth == old(depth) + 1
        invariant SkipItems(Rest(), depth) == result
        decreases |data| - pos
      {
        ItemsOnce(Rest(), depth);
        var good := SkipAnyValue();
        if !good {
          depth := depth - 1;
          return false;
        }
        var sep := NextOrClose(']');
        if sep != Comma {
          depth := depth - 1;
          return sep == Close;
        }
      }
    }

    // -------------------------------------------------------------------------
    // Counters. After a failure the position is unspecified, as in ParseFields' FAILED.
    // -------------------------------------------------------------------------

    method ReadKey() returns (ok: bool, key: string)
      requires Valid()
      modifies `pos
      ensures Valid() && ok == ScanKey(old(Rest())).Some?
      ensures ok ==> (key, Rest()) == ScanKey(old(Rest())).value && old(pos) < pos
    {
      hide SkipWs, ScanString, Expect;
      if pos < |data| && data[pos] == ',' {
        assert data[pos..][1..] == data[pos + 1..];
        pos := pos + 1;
        SkipWhitespace();
      }
      ok, key := ScanStringLiteral();
      if ok {
        ok := ExpectByte(':');
      }
      if ok {
        SkipWhitespace();
      }
    }

    /** Consumes the rest of an object whose value was not a number. */
    method SkipRemainingFields() returns (ok: bool)
      requires Valid() && depth == 0
      modifies `pos, `depth
      ensures Valid() && depth == 0
      ensures ok == !SkipFields(old(Rest())).outcome.Failed?
      ensures ok ==> SkipFields(old(Rest())) == Parsed(Skipped, Rest()) && old(pos) < pos
    {
      hide SkipWs, ScanKey, SkipValue;
      while true
        invariant Valid() && depth == 0 && old(pos) <= pos
        invariant SkipFields(Rest()) == SkipFields(old(Rest()))
        decreases |data| - pos
      {
        SkipWhitespace();
        if pos >= |data| {
          return false;
        }
        if data[pos] == '}' {
          assert data[pos..][1..] == data[pos + 1..];
          pos := pos + 1;
          return true;
        }
        var key;
        ok, key := ReadKey();
        if ok {
          ok := SkipAnyValue();
        }
        if !ok {
          return false;
        }
      }
    }

    /** Parses a counter object; `found` tells a counter from an object to be dropped. */
    method ParseCounterObject(parses: string -> bool) returns (ok: bool, found: bool, c: Counter)
      requires Valid() && depth == 0 && pos < |data|
      modifies `pos, `depth
      ensures Valid() && depth == 0
      ensures var r := ParseFields(old(Rest())[1..], NO_COUNTER, None, parses);
        && ok == !r.outcome.Failed?
        && (ok ==> r == Parsed(if found then Counted(c) else Skipped, Rest()) && old(pos) < pos)
    {
      hide SkipWs, ScanKey, ScanString, ScanNumber, SkipValue, SkipFields, ParseFields, WithField;
      assert data[pos..][1..] == data[pos + 1..];
      pos := pos + 1;
      c := NO_COUNTER;
      var num: Option<string> := None;
      ghost var result := ParseFields(Rest(), c, num, parses);
      while true
        invariant Valid() && depth == 0 && old(pos) < pos
        invariant ParseFields(Rest(), c, num, parses) == result
        decreases |data| - pos
      {
        FieldsOnce(Rest(), c, num, parses);
        SkipWhitespace();
        if pos >= |data| {
          return false, false, c;
        }
        if data[pos] == '}' {
          assert data[pos..][1..] == data[pos + 1..];
          pos := pos + 1;
          if num.None? || !parses(num.value) {
            return true, false, c;
          }
          return true, true, c.(raw := num.value);
        }
        var key, text;
        ok, key := ReadKey();
        if !ok || pos >= |data| {
          return false, false, c;
        }
        if key == "value" {
          if data[pos] in "\"n[{tf" {
            ok := SkipAnyValue();
            if ok {
              ok := SkipRemainingFields();
            }
            return ok, false, c;
          }
          ghost var w := Rest();
          ghost var start := pos;
          ok, text := ScanNumberLiteral();
          if !ok {
            return false, false, c;
          }
          assert text == w[..|w| - |Rest()|] by { TextIsPrefix(data, start, pos); }
          num := Some(text);
        } else if key in ["flag", "description", "ident"] {
          ok, text := ScanStringLiteral();
          if !ok {
            return false, false, c;
          }
          c := WithField(c, key, text);
        } else {
          ok := SkipAnyValue();
          if !ok {
            return false, false, c;
          }
        }
      }
    }

    /** One entry of a counter map, at its value. */
    method ParseMapEntry(key: string, keep: string -> bool, parses: string -> bool) returns (ok: bool, found: bool, c: Counter)
      requires Valid() && depth == 0
      modifies `pos, `depth
      ensures Valid() && depth == 0
      ensures var r := ParseEntry(key, old(Rest()), keep, parses);
        && ok == !r.outcome.Failed?
        && (ok ==> r == Parsed(if found then Counted(c) else Skipped, Rest()) && old(pos) < pos)
    {
      hide SkipValue, ParseFields;
      found, c := false, NO_COUNTER;
      if keep(key) && pos < |data| && data[pos] == '{' {
        ok, found, c := ParseCounterObject(parses);
      } else {
        ok := SkipAnyValue();
      }
    }

    method NextEntry(keep: string -> bool, parses: string -> bool)
      returns (ok: bool, key: string, found: bool, c: Counter)
      requires Valid() && depth == 0
      modifies `pos, `depth
      ensures Valid() && depth == 0
      ensures var (k, r) := ReadEntry(old(Rest()), keep, parses);
        && ok == !r.outcome.Failed?
        && (ok ==> key == k && r == Parsed(if found then Counted(c) else Skipped, Rest()) && old(pos) < pos)
    {
      hide SkipWs, ScanKey, ParseEntry;
      key, found, c := "", false, NO_COUNTER;
      SkipWhitespace();
      if pos < |data| && data[pos] == ',' {
        return false, key, found, c;
      }
      ok, key := ReadKey();
      if ok {
        ok, found, c := ParseMapEntry(key, keep, parses);
      }
    }

    /** The entries of a counter map, last entry of a key winning. */
    method ParseCounterMap(keep: string -> bool, parses: string -> bool) returns (ok: bool, result: Counters)
      requires Valid() && depth == 0
      modifies `pos, `depth
      ensures Valid() && depth == 0
      ensures (if ok then Some(result) else None) == ParseMap(old(Rest()), keep, parses)
    {
      hide SkipWs, Expect, ParseEntries, ReadEntry;
      result := map[];
      ok := ExpectByte('{');
      if !ok {
        return false, map[];
      }
      SkipWhitespace();
      if pos < |data| && data[pos] == '}' {
        pos := pos + 1;
        return true, map[];
      }
      ghost var expected := ParseEntries(Rest(), map[], keep, parses);
      while true
        invariant Valid() && depth == 0
        invariant ParseEntries(Rest(), result, keep, parses) == expected
        decreases |data| - pos
      {
        EntriesOnce(Rest(), result, keep, parses);
        var key, found, c;
        ok, key, found, c := NextEntry(keep, parses);
        if !ok {
          return false, map[];
        }
        if found {
          result := result[key := c];
        }
        var sep := NextOrClose('}');
        if sep != Comma {
          return sep == Close, if sep == Close then result else map[];
        }
      }
    }

    /** Looks for the nested schema. */
    method ParseV7(parses: string -> bool) returns (r: Nested)
      requires Valid() && depth == 0
      modifies `pos, `depth
      ensures r == ParseNested(old(Rest()), parses)
    {
      hide SkipWs, Expect, FindNested, MemberKey, SkipValue, ParseMap;
      var ok := ExpectByte('{');
      if !ok {
        return Broken;
      }
      SkipWhitespace();
      if pos < |data| && data[pos] == '}' {
        return NoCountersKey;
      }
      ghost var expected := FindNested(Rest(), parses);
      while true
        invariant Valid() && depth == 0
        invariant FindNested(Rest(), parses) == expected
        decreases |data| - pos
      {
        FindNestedOnce(Rest(), parses);
        var key, m;
        ok, key := ReadMemberKey();
        if !ok {
          return Broken;
        }
        if key == "counters" {
          ok, m := ParseCounterMap(AnyKey(), parses);
          return if ok then Found(m) else Broken;
        }
        ok := SkipAnyValue();
        if !ok {
          return Broken;
        }
        var sep := NextOrClose('}');
        if sep != Comma {
          return if sep == Close then NoCountersKey else Broken;
        }
      }
    }
  }

  /** The nested schema, falling back to the flat one with a scanner of its own. */
  method ReadVarnishstat(data: string, parses: string -> bool) returns (ok: bool, result: Counters)
    ensures (if ok then Some(result) else None) == ParseVarnishstat(data, parses)
  {
    hide ParseNested, ParseMap;
    assert data[0..] == data;
    var v7 := new Scanner(data);
    var r := v7.ParseV7(parses);
    match r
    case Found(m) => return true, m;
    case Broken => return false, map[];
    case NoCountersKey =>
      var v6 := new Scanner(data);
      ok, result := v6.ParseCounterMap(Dotted, parses);
  }

  lemma TextIsPrefix(data: string, p: nat, q: nat)
    requires p <= q <= |data|
    ensures data[p..q] == data[p..][..|data[p..]| - |data[q..]|]
  {}

  lemma FieldsOnce(s: string, c: Counter, num: Option<string>, parses: string -> bool)
    ensures ParseFields(s, c, num, parses) ==
      var t := SkipWs(s);
      if t == "" then FAILED
      else if t[0] == '}' then Parsed(Finish(c, num, parses), t[1..])
      else
        var k := ScanKey(t);
        if k.None? || k.value.1 == "" then FAILED
        else
          var (key, w) := k.value;
          if key == "value" && w[0] in "\"n[{tf" then
            var v := SkipValue(w, 0);
            if v.None? then FAILED else SkipFields(v.value)
          else if key == "value" then
            var v := ScanNumber(w);
            if v.None? then FAILED else ParseFields(v.value, c, Some(w[..|w| - |v.value|]), parses)
          else if key in ["flag", "description", "ident"] then
            var v := ScanString(w);
            if v.None? then FAILED else ParseFields(v.value.1, WithField(c, key, v.value.0), num, parses)
          else
            var v := SkipValue(w, 0);
            if v.None? then FAILED else ParseFields(v.value, c, num, parses)
  {
    hide SkipWs, ScanKey, SkipValue, SkipFields, ScanNumber, ScanString, WithField;
  }

  /** Key and outcome of the next entry of a counter map. */
  function ReadEntry(s: string, keep: string -> bool, parses: string -> bool): (string, Parsed) {
    var t := SkipWs(s);
    var k := if StartsWith(t, ',') then None else ScanKey(t);
    if k.None? then ("", FAILED) else (k.value.0, ParseEntry(k.value.0, k.value.1, keep, parses))
  }

  lemma EntriesOnce(s: string, m: Counters, keep: string -> bool, parses: string -> bool)
    ensures ParseEntries(s, m, keep, parses) ==
      var (key, e) := ReadEntry(s, keep, parses);
      if e.outcome.Failed? then None
      else
        var m' := Enter(m, key, e.outcome);
        var u := SkipWs(e.rest);
        if StartsWith(u, '}') then Some(m')
        else if StartsWith(u, ',') then ParseEntries(u[1..], m', keep, parses)
        else None
  {
    hide SkipWs, ScanKey, ParseEntry, Enter;
  }

  lemma FindNestedOnce(s: string, parses: string -> bool)
    ensures FindNested(s, parses) ==
      var k := MemberKey(s);
      if k.None? then Broken
      else if k.value.0 == "counters" then
        var m := ParseMap(k.value.1, AnyKey(), parses);
        if m.None? then Broken else Found(m.value)
      else
        var v := SkipValue(k.value.1, 0);
        if v.None? then Broken
        else
          var u := SkipWs(v.value);
          if StartsWith(u, '}') then NoCountersKey
          else if StartsWith(u, ',') then FindNested(u[1..], parses)
          else Broken
  {
    hide SkipWs, ScanString, Expect, SkipValue, ParseMap;
  }

  // ---------------------------------------------------------------------------
  // One turn of each loop
  // ---------------------------------------------------------------------------

  function Prepend(raw: string, r: Option<(string, string)>): Option<(string, string)> {
    if r.None? then None else Some((raw + r.value.0, r.value.1))
  }

  /** Length of the byte or escape sequence a string continues with; 0 if malformed. */
  function UnitLength(s: string): (n: nat)
    requires s != ""
    ensures n <= |s|
  {
    if s[0] == '\\' then EscapeLength(s) else 1
  }

  lemma BodyUnfolds(data: string, p: nat)
    requires p < |data|
    ensures data[p] == '"' ==> StringBody(data[p..]) == Some(("", data[p + 1..]))
    ensures data[p] != '"' ==>
      var n := UnitLength(data[p..]);
      if n == 0 then StringBody(data[p..]) == None
      else StringBody(data[p..]) == Prepend(data[p..p + n], StringBody(data[p + n..]))
  {
    hide EscapeLength;
    var s := data[p..];
    assert s[1..] == data[p + 1..];
    var n := UnitLength(s);
    assert s[n..] == data[p + n..] && s[..n] == data[p..p + n];
  }

  lemma NoBodyAtEnd(s: string)
    requires s == ""
    ensures StringBody(s) == None
  {}

  lemma EscapeSeen(data: string, p: nat, q: nat)
    requires p < q <= |data| && (data[p] != '\\' ==> q == p + 1)
    ensures '\\' in data[p..q] <==> data[p] == '\\'
  {
    assert data[p..q][0] == data[p];
  }

  lemma PrependIs(raw: string, r: Option<(string, string)>)
    ensures Prepend(raw, r) == if r.None? then None else Some((raw + r.value.0, r.value.1))
  {}

  lemma PrependNothing(r: Option<(string, string)>)
    ensures Prepend("", r) == r
  {
    if r.Some? {
      assert "" + r.value.0 == r.value.0;
    }
  }

  lemma PrependTwice(a: string, b: string, r: Option<(string, string)>)
    ensures Prepend(a, Prepend(b, r)) == Prepend(a + b, r)
  {
    if r.Some? {
      ConcatAssociates(a, b, r.value.0);
    }
  }

  lemma LiteralHere(data: string, pos: nat, lit: string)
    requires pos <= |data|
    ensures lit <= data[pos..] <==> pos + |lit| <= |data| && data[pos..pos + |lit|] == lit
  {
    if pos + |lit| <= |data| {
      assert data[pos..][..|lit|] == data[pos..pos + |lit|];
    }
  }

  /** Key and colon of a member. */
  function MemberKey(s: string): (r: Option<(string, string)>)
    ensures r.Some? ==> |r.value.1| < |s|
  {
    var k := ScanString(SkipWs(s));
    if k.None? then None
    else
      var c := Expect(k.value.1, ':');
      if c.None? then None else Some((k.value.0, c.value))
  }

  /** Key, colon and value of one member. */
  function SkipMember(s: string, depth: nat): (r: Option<string>)
    ensures r.Some? ==> |r.value| < |s|
  {
    var k := MemberKey(s);
    if k.None? then None else SkipValue(k.value.1, depth)
  }

  lemma MembersOnce(s: string, depth: nat)
    ensures SkipMembers(s, depth) ==
      var v := SkipMember(s, depth);
      if v.None? then None
      else
        var t := SkipWs(v.value);
        if StartsWith(t, '}') then Some(t[1..])
        else if StartsWith(t, ',') then SkipMembers(t[1..], depth)
        else None
  {
    hide SkipWs, ScanString, Expect, SkipValue;
  }

  lemma ItemsOnce(s: string, depth: nat)
    ensures SkipItems(s, depth) ==
      var v := SkipValue(s, depth);
      if v.None? then None
      else
        var t := SkipWs(v.value);
        if StartsWith(t, ']') then Some(t[1..])
        else if StartsWith(t, ',') then SkipItems(t[1..], depth)
        else None
  {
    hide SkipWs, SkipValue;
  }
}
